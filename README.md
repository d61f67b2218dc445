# Advent of Code 2015, verified in Dafny

This project models the solutions in `src/solutions/` of the Rust repository
bram-inniger/advent-of-code-2015. There is one Dafny module per puzzle day: `DayNN` in
`dayNN.dfy`. Two shared modules sit beside them. `Common` (`common.dfy`) holds the
`Option` type that stands for an `unwrap` on a search that may find nothing, plus minimum,
maximum and sum helpers. `Arrangements` (`arrangements.dfy`) holds the orderings of a
sequence, which stand in for `itertools`' `permutations`.

Each module follows the form of its source file:

- Code that folds, maps and filters becomes functions, with lemmas about them.
- Code that loops and mutates becomes methods with loop invariants. Each method is proved
  against a specification function.
- Examples of the imperative form:
  - The light grids of day 6 are `array2`s.
  - The sieve of day 20 is an `array`.
  - The password of day 11, the register machine of day 23 and the combination generator
    of day 17 are classes whose methods update their fields.
- The battle search of day 22 is a first-in first-out queue loop over game states. Its answer is
  always the cost of some winning sequence of spells. When the search finishes within its bound on
  expansions, it is proved to be the least mana of any winning sequence.

Parsing the puzzle text is mostly not modelled. Every operation takes already-parsed values: the
records, instructions and numbers that the source's `new` constructors build with regular
expressions. Two parsers are modelled: the grid rows of day 18 (`Day18.Parse`, built by the
loops of `Day18.New`) and the `u16` literals of day 7 (`Day07.ParseU16`). Where the source panics because a search found nothing, the model returns
`None`. Where the source relies on an input it never checks, such as a character that is
`unreachable!()`, the model has a precondition.

## Model

| member | source | states |
|---|---|---|
| Day01.Step | src/solutions/day_01.rs:4-8 | `(` moves up exactly one floor and `)` down exactly one |
| Day01.Solve1 | src/solutions/day_01.rs:1-10 | the final floor lies between minus the input length and the input length |
| Day01.FloorIsCountDifference | src/solutions/day_01.rs:1-10 | the final floor is the number of `(` minus the number of `)` |
| Day01.OrderIrrelevant | src/solutions/day_01.rs:18-26 | two inputs with the same parentheses in any order end on the same floor |
| Day01.Samples | src/solutions/day_01.rs:17-27 | `(())` and `()()` end on 0, `(((`, `(()(()(` and `))(((((` on 3, `())` and `))(` on -1, `)))` and `)())())` on -3 |
| Day02.Slack | src/solutions/day_02.rs:45-50 | the slack is the area of one of the three faces and no larger than any of them |
| Day02.ShortestDistance | src/solutions/day_02.rs:52-58 | the ribbon wrap is one of the three face perimeters and no larger than any of them |
| Day02.ShortestAvoidsLongest | src/solutions/day_02.rs:52-58 | the shortest perimeter goes round the two shortest sides: twice the sum of the sides less the longest |
| Day02.Symmetric | src/solutions/day_02.rs:41-62 | paper and ribbon do not depend on which side is called length, width or height |
| Day02.Solve1 | src/solutions/day_02.rs:5-11 | no presents need no paper and one present needs its own paper; with Day02.SolveAppend this fixes the total for every list |
| Day02.Solve2 | src/solutions/day_02.rs:13-19 | no presents need no ribbon and one present needs its own ribbon; with Day02.SolveAppend this fixes the total for every list |
| Day02.SolveAppend | src/solutions/day_02.rs:5-19 | the paper and ribbon totals of two lists of presents add up |
| Day02.Sample | src/solutions/day_02.rs:71-92 | `2x3x4` and `1x1x10` need 101 square feet of paper and 48 feet of ribbon |
| Day03.Move | src/solutions/day_03.rs:35-41 | each arrow moves one house north, east, south or west |
| Day03.VisitedPrefixes | src/solutions/day_03.rs:28-47 | a house is visited exactly when Santa stands on it after some prefix of the directions |
| Day03.VisitedBound | src/solutions/day_03.rs:28-47 | at most one more house than there are directions is visited |
| Day03.Houses | src/solutions/day_03.rs:28-47 | the loop collects exactly the visited set, starting house included |
| Day03.Solve1 | src/solutions/day_03.rs:4-6 | the answer is the number of visited houses, between 1 and the number of directions plus 1 |
| Day03.Alternate | src/solutions/day_03.rs:9-20 | the even- (or odd-) indexed directions, in order, and how many there are |
| Day03.Solve2 | src/solutions/day_03.rs:8-26 | the answer is the size of the union of the houses Santa and Robo-Santa visit, at least 1 and at most the number of directions plus 1 |
| Day03.VisitedStep | src/solutions/day_03.rs:34-44 | one more direction moves from the last position and adds just the new house |
| Day03.UpDownVisits | src/solutions/day_03.rs:63 | going up and down alternately only ever visits two houses |
| Day03.Line | src/solutions/day_03.rs:28-47 | directions that all point the same way visit a straight line of houses |
| Day03.LineCard | src/solutions/day_03.rs:28-47 | such a straight walk visits one house more than it has directions |
| Day03.SampleEast | src/solutions/day_03.rs:61 | `>` visits 2 houses |
| Day03.SampleSquare | src/solutions/day_03.rs:62 | `^>v<` visits 4 houses |
| Day03.SampleUpDown | src/solutions/day_03.rs:63 | `^v^v^v^v^v` visits 2 houses |
| Day03.SampleSplitTwo | src/solutions/day_03.rs:75 | `^v` split between the two Santas visits 3 houses |
| Day03.SampleSplitSquare | src/solutions/day_03.rs:76 | `^>v<` split visits 3 houses |
| Day03.SampleSplitUpDown | src/solutions/day_03.rs:77 | `^v^v^v^v^v` split visits 11 houses |
| Day05.ThreeVowelsCount | src/solutions/day_05.rs:16 | the three-vowel pattern matches exactly when the string holds at least three vowels, repeats counted |
| Day05.VowelCounts | src/solutions/day_05.rs:16 | one, two or three vowels at increasing positions exist exactly when the vowel count reaches that number |
| Day05.ScanDoubleCorrect | src/solutions/day_05.rs:17-20 | the scan finds a doubled letter exactly when some lower-case letter appears twice in a row |
| Day05.ScanForbiddenCorrect | src/solutions/day_05.rs:21 | the scan finds a forbidden pair exactly when `ab`, `cd`, `pq` or `xy` occurs |
| Day05.IsNiceCorrect | src/solutions/day_05.rs:6-13 | a string passes the three filters exactly when it satisfies all three rules |
| Day05.Solve1 | src/solutions/day_05.rs:6-13 | at most every string is nice |
| Day05.CountsNice | src/solutions/day_05.rs:6-13 | the count is the number of positions holding a nice string |
| Day05.TripleA | src/solutions/day_05.rs:33 | `aaa` is nice: its vowels overlap its double letter |
| Day05.NiceFirst | src/solutions/day_05.rs:32 | `ugknbfddgicrmopn` satisfies all three rules |
| Day05.NoDouble | src/solutions/day_05.rs:34 | `jchzalrnumimnmhp` has no double letter |
| Day05.Forbidden | src/solutions/day_05.rs:35 | `haegwjzuvuyypxyu` contains `xy` |
| Day05.OneVowelOnly | src/solutions/day_05.rs:36 | `dvszwmarrgswjxmb` has a single vowel |
| Day05.Sample | src/solutions/day_05.rs:31-39 | two of the five sample strings are nice |
| Day06.Switch | src/solutions/day_06.rs:18-22 | turning on lights a light, turning off darkens it, toggling inverts it |
| Day06.Dim | src/solutions/day_06.rs:43-47 | brightness goes up by one, down by one but never below zero, or up by two |
| Day06.Apply | src/solutions/day_06.rs:16-24 | one instruction updates exactly the lights in its rectangle, each from its old value; an empty rectangle, wherever it lies, changes nothing |
| Day06.Run | src/solutions/day_06.rs:15-25 | after all instructions, every light holds its own history of updates |
| Day06.Tally | src/solutions/day_06.rs:27-29 | the summation over rows and columns yields the grid total |
| Day06.Solve1 | src/solutions/day_06.rs:7-30 | the answer is the number of lit lights, between 0 and the number of lights |
| Day06.Solve2 | src/solutions/day_06.rs:32-54 | the answer is the total brightness and never negative |
| Day06.CellBrightness | src/solutions/day_06.rs:45 | no light's brightness ever drops below zero |
| Day06.BrightnessNonNegative | src/solutions/day_06.rs:54 | the total brightness is never negative |
| Day06.CountBounds | src/solutions/day_06.rs:27-29 | the count of lit lights is at most the number of lights |
| Day06.Sample1Cell | src/solutions/day_06.rs:111-116 | after the first sample, a light is lit unless it is in row 0 or the middle four |
| Day06.Sample1Count | src/solutions/day_06.rs:110-118 | the first sample leaves 998996 lights lit |
| Day06.Sample2Cell | src/solutions/day_06.rs:131-132 | after the second sample, the corner has brightness 3 and every other light 2 |
| Day06.Sample2Total | src/solutions/day_06.rs:130-134 | the second sample's total brightness is 2000001 |
| Day07.Sources | src/solutions/day_07.rs:42-55 | AND and OR read two wires, every other gate one |
| Day07.ParseU16 | src/solutions/day_07.rs:40 | a label is a literal exactly when it is a decimal numeral, optionally with `+`, of at most 65535 |
| Day07.NewCircuit | src/solutions/day_07.rs:16-20 | the table holds, for each wire some component drives, a component driving it; a later line for the same wire replaces an earlier one |
| Day07.NewCircuitSnoc | src/solutions/day_07.rs:16-20 | each further component overwrites its destination's entry |
| Day07.NotComplement | src/solutions/day_07.rs:51 | NOT gives the 16-bit complement |
| Day07.Signal | src/solutions/day_07.rs:32-60 | the memoised evaluation returns the wire's value, answers a cached wire from the cache, and only adds correct entries |
| Day07.Solve | src/solutions/day_07.rs:15-30 | part 1 is the value of `a`; part 2 is the value of `a` with `b` pinned to part 1's answer |
| Day07.NotNumber | src/solutions/day_07.rs:40-41 | a wire name is never read as a number |
| Day07.Numbers | src/solutions/day_07.rs:40 | `123` and `456` read as numbers |
| Day07.EvalLiteral | src/solutions/day_07.rs:40-41 | a numeric label evaluates to its own value |
| Day07.EvalWire | src/solutions/day_07.rs:44 | a plain wire carries its source's value |
| Day07.EvalLShift | src/solutions/day_07.rs:52 | a left shift carries its source's value shifted |
| Day07.SampleSignal | src/solutions/day_07.rs:207-220 | in the sample circuit, wire `a` carries 492 |
| Day09.Vertices | src/solutions/day_09.rs:33-44 | every distance line enters the table in both directions |
| Day09.VerticesOnlyNamed | src/solutions/day_09.rs:33-44 | the table holds no pair of cities that no line names |
| Day09.VerticesSymmetric | src/solutions/day_09.rs:42 | the table is symmetric: the distance from `a` to `b` is the distance from `b` to `a` |
| Day09.VerticesLastWins | src/solutions/day_09.rs:42-44 | when a pair is named more than once, the last line's distance is kept |
| Day09.Cities | src/solutions/day_09.rs:45 | the cities are listed once each, exactly those that some line names |
| Day09.NewGraph | src/solutions/day_09.rs:30-48 | the nodes are distinct and are exactly the first cities of the table's keys |
| Day09.Cost | src/solutions/day_09.rs:14-18 | a route of at most one city costs nothing |
| Day09.CostExtend | src/solutions/day_09.rs:15-17 | extending a route by one city adds the distance of its last leg |
| Day09.RoutesConnected | src/solutions/day_09.rs:13-16 | in a complete table every ordering of the cities has a distance for each leg |
| Day09.RoutesEnumerated | src/solutions/day_09.rs:10-13 | the permutations are exactly the routes that visit every city once |
| Day09.Costs | src/solutions/day_09.rs:14-18 | one cost per route, each the route's cost |
| Day09.Shortest | src/solutions/day_09.rs:10-20 | the minimum is the cost of some route and no route costs less |
| Day09.Solve1 | src/solutions/day_09.rs:7-21 | the answer is the length of a route through every city once, and no such route is shorter |
| Day10.Encode | src/solutions/day_10.rs:15-37 | the reading has an even length, is empty only for an empty number, ends with the number's last digit, and counts at least one |
| Day10.Push | src/solutions/day_10.rs:22-29 | one more digit either bumps the last count or starts a new pair ending in that digit |
| Day10.Expand | src/solutions/day_10.rs:15-37 | the loop produces exactly the reading of the number |
| Day10.DecodeEncode | src/solutions/day_10.rs:15-37 | decoding the reading gives back the number: the reading loses nothing |
| Day10.EncodeWellFormed | src/solutions/day_10.rs:15-37 | every count in a reading is at least 1 and no two neighbouring pairs hold the same digit |
| Day10.DecodeAppend | src/solutions/day_10.rs:25-26 | decoding distributes over appending whole pairs |
| Day10.EncodeSnoc | src/solutions/day_10.rs:21-31 | reading a number with one more digit extends the reading by that digit |
| Day10.DecodePush | src/solutions/day_10.rs:21-31 | the decoded reading grows by exactly the added digit |
| Day10.Solve | src/solutions/day_10.rs:4-13 | the answer is the length after the given number of readings |
| Day10.Sample | src/solutions/day_10.rs:44-48 | `1` reads in turn as `11`, `21`, `1211`, `111221` and `312211`, six digits |
| Day10.Reads | src/solutions/day_10.rs:21-31 | reading one more digit of a number, with the earlier reading known |
| Day10.ReadsOne | src/solutions/day_10.rs:45 | `1` reads as `11` |
| Day10.ReadsOneOne | src/solutions/day_10.rs:45 | `11` reads as `21` |
| Day10.ReadsTwoOne | src/solutions/day_10.rs:45 | `21` reads as `1211` |
| Day10.ReadsOneTwoOneOne | src/solutions/day_10.rs:45 | `1211` reads as `111221` |
| Day10.ReadsOneOneOneTwoTwoOne | src/solutions/day_10.rs:45 | `111221` reads as `312211` |
| Day11.ValueBound | src/solutions/day_11.rs:28-37 | a password read as a base-26 number is below 26 to the power of its length |
| Day11.ValueInjective | src/solutions/day_11.rs:28-37 | two passwords of the same length with the same base-26 value are equal |
| Day11.Incremented | src/solutions/day_11.rs:28-37 | incrementing keeps the length and the lower-case letters |
| Day11.IncrementedValue | src/solutions/day_11.rs:28-37 | incrementing adds one to the base-26 value, wrapping `zz…z` round to `aa…a` |
| Day11.IncrementedTrailing | src/solutions/day_11.rs:29-31 | trailing `z`s become `a`s and the letter before them is incremented |
| Day11.Iter | src/solutions/day_11.rs:9-11 | repeated increments keep the length and the lower-case letters |
| Day11.IterValue | src/solutions/day_11.rs:9-11 | `k` increments add `k` to the base-26 value, modulo 26 to the power of the length |
| Day11.StraightBelow | src/solutions/day_11.rs:43-49 | the scan finds a run of three increasing letters ending before position `k` exactly when one exists |
| Day11.StraightIff | src/solutions/day_11.rs:43-49 | the straight rule holds exactly when three consecutive letters increase by one each |
| Day11.PairLetters | src/solutions/day_11.rs:57-64 | the letters that appear doubled, each once |
| Day11.PairsIff | src/solutions/day_11.rs:57-64 | the pairs rule holds exactly when two doubled letters differ |
| Day11.Password.constructor | src/solutions/day_11.rs:22-26 | the password starts out as the given text |
| Day11.Password.Increment | src/solutions/day_11.rs:28-37 | the text becomes the incremented text |
| Day11.NoneValidNext | src/solutions/day_11.rs:9-11 | an invalid candidate extends the run of rejected candidates |
| Day11.Solve | src/solutions/day_11.rs:5-14 | the answer is the first valid password after the given one: some `k` increments on, valid, and no earlier increment is valid |
| Day11.SamplesValid | src/solutions/day_11.rs:73-74 | `abcdffaa` and `ghjaabcc` are valid |
| Day11.SampleOneOrder | src/solutions/day_11.rs:73 | `abcdffaa` is 17413 increments after `abcdefgh` |
| Day11.SampleTwoOrder | src/solutions/day_11.rs:74 | `ghjaabcc` is 7585801 increments after `ghijklmn` |
| Day11.ValueEight | src/solutions/day_11.rs:28-37 | the base-26 value of an eight-letter password, digit by digit |
| Day11.SampleValue | src/solutions/day_11.rs:9-11 | a password whose value is `k` more than another's is reached after `k` increments |
| Day12.DigitRun | src/solutions/day_12.rs:6 | the longest run of digits starting at a position: all digits, and stopped by a non-digit or the end |
| Day12.End | src/solutions/day_12.rs:6 | a match of `-?\d+` runs from its start to the end of the digit run, is non-empty and cannot be extended |
| Day12.NoStartNoNumbers | src/solutions/day_12.rs:6-8 | a text with no digit after a position has no match after it |
| Day12.NoDigitsNoSum | src/solutions/day_12.rs:5-12 | a document without digits sums to 0 |
| Day12.NumbersShift | src/solutions/day_12.rs:6-8 | the matches in the tail of a text do not depend on what comes before a separating character |
| Day12.NumbersPrefix | src/solutions/day_12.rs:6-8 | the matches before a separating character are those of the text before it |
| Day12.Separated | src/solutions/day_12.rs:5-12 | a character that is neither a digit nor `-` splits the sum in two |
| Day12.Single | src/solutions/day_12.rs:6-10 | a lone number sums to its value, and with a leading `-` to minus its value |
| Day12.SplitAt | src/solutions/day_12.rs:5-12 | a separator at a position splits the sum of a slice in two |
| Day12.OneDigit | src/solutions/day_12.rs:6-10 | a lone digit sums to its value, and after a `-` to minus it |
| Day12.SampleList | src/solutions/day_12.rs:20 | `[1,2,3]` sums to 6 |
| Day12.SampleObject | src/solutions/day_12.rs:21 | `{"a":2,"b":4}` sums to 6 |
| Day12.SampleNested | src/solutions/day_12.rs:22 | `[[[3]]]` sums to 3 |
| Day12.SampleNestedNegative | src/solutions/day_12.rs:23 | `{"a":{"b":4},"c":-1}` sums to 3 |
| Day12.SampleCancelInList | src/solutions/day_12.rs:24 | `{"a":[-1,1]}` sums to 0 |
| Day12.SampleCancelInObject | src/solutions/day_12.rs:25 | `[-1,{"a":1}]` sums to 0 |
| Day12.SampleEmpty | src/solutions/day_12.rs:26-27 | `[]` and `{}` sum to 0 |
| Day13.Units | src/solutions/day_13.rs:51-57 | gaining is positive, losing negative, by the stated amount |
| Day13.Relations | src/solutions/day_13.rs:43-61 | the table has an entry exactly for each person and neighbour some line names |
| Day13.RelationsLastWins | src/solutions/day_13.rs:43-61 | a pair named more than once keeps the last line's happiness |
| Day13.People | src/solutions/day_13.rs:62 | the guests are listed once each, exactly the people who state a relation |
| Day13.NewSeating | src/solutions/day_13.rs:40-65 | the guests are distinct and exactly the first people of the table's keys |
| Day13.Left | src/solutions/day_13.rs:19 | the left neighbour is the previous seat, wrapping from the first seat to the last |
| Day13.Right | src/solutions/day_13.rs:22 | the right neighbour is the next seat, wrapping from the last seat to the first |
| Day13.LeftOfRight | src/solutions/day_13.rs:19-22 | the left neighbour of one's right neighbour is oneself |
| Day13.CouplesSplit | src/solutions/day_13.rs:14-27 | summing each neighbouring couple in both directions is summing right-hand and back-facing happiness |
| Day13.LeftIsBack | src/solutions/day_13.rs:19-25 | the left-hand happiness of the whole table is the back-facing happiness of each couple |
| Day13.ScoreByCouples | src/solutions/day_13.rs:14-27 | an arrangement's score is the sum over neighbouring couples of both guests' happiness |
| Day13.ArrangementsSeated | src/solutions/day_13.rs:10-25 | every arrangement of all guests has a table entry for each neighbour |
| Day13.ArrangementsEnumerated | src/solutions/day_13.rs:10-13 | the permutations are exactly the arrangements seating every guest once |
| Day13.Scores | src/solutions/day_13.rs:14-28 | one score per arrangement, each its score |
| Day13.ScoreBelowMax | src/solutions/day_13.rs:29 | no listed arrangement scores above the maximum |
| Day13.Best | src/solutions/day_13.rs:10-30 | the best score is that of some arrangement and no arrangement scores higher |
| Day13.Solve1 | src/solutions/day_13.rs:7-31 | the answer is the happiness of some seating of all guests and no seating is happier |
| Day14.DistanceMonotone | src/solutions/day_14.rs:32-38 | a reindeer never loses ground: its distance only grows with time |
| Day14.DistanceFlown | src/solutions/day_14.rs:33-38 | the distance is the speed times the seconds spent flying |
| Day14.FlownClosedForm | src/solutions/day_14.rs:36 | the seconds flown are the full cycles' flying time plus the flying part of the current cycle |
| Day14.DistanceClosedForm | src/solutions/day_14.rs:32-38 | the distance after `t` seconds in closed form |
| Day14.Distances | src/solutions/day_14.rs:29-38 | one distance per reindeer, each its own |
| Day14.Points | src/solutions/day_14.rs:30-44 | one point tally per reindeer |
| Day14.PointsBound | src/solutions/day_14.rs:40-44 | no reindeer has more points than seconds have passed |
| Day14.SomeoneScores | src/solutions/day_14.rs:40-44 | every second at least one reindeer, the leader, gains a point |
| Day14.Largest | src/solutions/day_14.rs:40 | the scan returns the largest distance |
| Day14.MaxUnique | src/solutions/day_14.rs:40 | an element no smaller than any other is the maximum |
| Day14.Fly | src/solutions/day_14.rs:33-38 | one second moves every flying reindeer on by its speed |
| Day14.Award | src/solutions/day_14.rs:42-44 | exactly the reindeer at the leading distance gain one point |
| Day14.PointsStep | src/solutions/day_14.rs:40-44 | awarding the leaders their point is one second of the point tally |
| Day14.Tick | src/solutions/day_14.rs:32-45 | one second of the race advances distances and points together |
| Day14.Result | src/solutions/day_14.rs:27-54 | the race returns the largest distance and the largest point tally; a reindeer with a zero-length cycle is accepted when the race lasts no second, since the source never divides then |
| Day14.SampleDistance | src/solutions/day_14.rs:93-100 | after 1000 seconds Comet leads Dancer with 1120 km |
| Day14.Solve1 | src/solutions/day_14.rs:6-8 | the answer is the distance of some reindeer, and none is further |
| Day14.Solve2 | src/solutions/day_14.rs:10-12 | the answer is the points of some reindeer, none has more, and it is at most the race time |
| Day15.NewRecipe | src/solutions/day_15.rs:20-43 | a two-ingredient recipe is padded with two bad ingredients, any other is kept |
| Day15.Clamped | src/solutions/day_15.rs:61-80 | a property total below zero counts as zero |
| Day15.Score | src/solutions/day_15.rs:60-87 | a score is never negative, and it is positive exactly when the calorie rule (if required) is met and none of the four clamped totals is zero |
| Day15.Split | src/solutions/day_15.rs:48-51 | four non-negative amounts adding up to 100 teaspoons, the first three as given |
| Day15.SplitOf | src/solutions/day_15.rs:48-51 | every split is one the loops visit |
| Day15.Perfect | src/solutions/day_15.rs:45-58 | the loops return the score of some split, and no split scores higher |
| Day15.Solve | src/solutions/day_15.rs:6-12 | the answer is the best mixture's score, over all splits |
| Day15.SampleScores | src/solutions/day_15.rs:126-152 | 44 Butterscotch to 56 Cinnamon score 62842880; 40 to 60 with 500 calories score 57600000 |
| Day16.Solve1 | src/solutions/day_16.rs:26-32 | the answer is `None` exactly when no Sue matches; otherwise it is the number of the first Sue who matches |
| Day16.ForgetKeepsMatch | src/solutions/day_16.rs:29 | forgetting a compound never rules a Sue out |
| Day16.OffTapeIrrelevant | src/solutions/day_16.rs:28-29 | a compound the tape does not list has no bearing on the match |
| Day16.Mismatch | src/solutions/day_16.rs:29 | a remembered amount that differs from the tape rules a Sue out |
| Day16.FirstWins | src/solutions/day_16.rs:26-30 | a matching first Sue is the answer whatever follows her |
| Day16.Sample | src/solutions/day_16.rs:11-32 | of a Sue with 8 cats and one with 7 cats, 3 trees and 2 cars, the second is the answer |
| Day17.Masks | src/solutions/day_17.rs:26-38 | all `2^n` completions of a prefix, each extending it by `n` choices |
| Day17.Generator.constructor | src/solutions/day_17.rs:10-11 | the scratch vector and the accumulator start empty |
| Day17.Generator.Generate | src/solutions/day_17.rs:26-38 | the recursion appends every completion of the current prefix to the accumulator and leaves the prefix as it found it |
| Day17.MasksOrdered | src/solutions/day_17.rs:30-35 | the completions come in increasing order, `false` before `true`, so none is produced twice |
| Day17.MasksComplete | src/solutions/day_17.rs:26-38 | every choice of containers is produced |
| Day17.CountMatching | src/solutions/day_17.rs:14-23 | the count of matching masks is at most the number of masks |
| Day17.CountAppend | src/solutions/day_17.rs:14-23 | counting over two lists of masks adds up |
| Day17.CountMasks | src/solutions/day_17.rs:12-23 | counting the generated masks that hold the liters is the number of ways to choose containers that hold them |
| Day17.Solve1 | src/solutions/day_17.rs:4-24 | the answer is the number of subsets of the containers holding exactly the liters, at most `2^n` |
| Day17.WaysOne | src/solutions/day_17.rs:4-24 | with one container there is one way for 0 liters and one for its size |
| Day17.WaysFives | src/solutions/day_17.rs:4-24 | two containers of 5 give one way for 0 and 10 liters and two ways for 5 |
| Day17.Sample | src/solutions/day_17.rs:47-51 | containers 20, 15, 10, 5, 5 hold 25 liters in 4 ways |
| Day18.CountLit | src/solutions/day_18.rs:97-108 | the number of the first `k` neighbour offsets that land on a lit light |
| Day18.LitNeighbours | src/solutions/day_18.rs:97-108 | the number of lit neighbours, at most eight, positions off the grid counting as off |
| Day18.Next | src/solutions/day_18.rs:69-84 | a light is on next exactly when it is on with 2 or 3 lit neighbours, or off with exactly 3 |
| Day18.Step | src/solutions/day_18.rs:63-95 | every light changes by that rule at once, the grid keeps its positions and size |
| Day18.StepIsLocal | src/solutions/day_18.rs:63-95 | a light's next state depends only on it and its eight neighbours |
| Day18.IterateKeepsShape | src/solutions/day_18.rs:18-20 | any number of steps keeps the grid's positions and size |
| Day18.CountOn | src/solutions/day_18.rs:22-26 | the number of lights on is at most the number of lights |
| Day18.Parse | src/solutions/day_18.rs:37-61 | the grid has one light per character, on exactly at `#` |
| Day18.New | src/solutions/day_18.rs:37-61 | the nested loops build exactly that grid |
| Day18.Solve1 | src/solutions/day_18.rs:15-27 | the answer is the count of lights on after the given number of steps, at most the grid size |
| Day19.Occurrences | src/solutions/day_19.rs:37 | every position returned is an occurrence of the pattern |
| Day19.OccurrencesOrdered | src/solutions/day_19.rs:37 | the occurrences are increasing and do not overlap |
| Day19.OccurrencesGreedy | src/solutions/day_19.rs:37 | every occurrence is either found or overlaps one found just before it |
| Day19.Replace | src/solutions/day_19.rs:38-43 | the new molecule is the old one with the match at `p` swapped for the replacement |
| Day19.MoleculeShape | src/solutions/day_19.rs:33-47 | every generated molecule comes from one rule applied at one occurrence |
| Day19.MoleculesComplete | src/solutions/day_19.rs:33-47 | every found occurrence of every rule yields a generated molecule |
| Day19.MoleculeLength | src/solutions/day_19.rs:38-43 | a generated molecule is as long as the old one with one rule's lengths swapped |
| Day19.Solve1 | src/solutions/day_19.rs:4-6 | the count is zero exactly when no rule's pattern occurs in the molecule |
| Day19.SampleHOH | src/solutions/day_19.rs:56-62 | `HOH` with the three sample rules gives 4 distinct molecules |
| Day19.SampleHOHOHO | src/solutions/day_19.rs:64-70 | `HOHOHO` gives 7 distinct molecules |
| Day20.Presents | src/solutions/day_20.rs:7-13 | a house gets at least ten times its own number |
| Day20.NoLargerDivisor | src/solutions/day_20.rs:8-12 | elves beyond a house's number leave it alone |
| Day20.Visit | src/solutions/day_20.rs:9-11 | one elf adds ten times its number to each positive multiple of it, and to nothing else |
| Day20.Sieve | src/solutions/day_20.rs:7-13 | each house ends up with ten times the sum of its divisors |
| Day20.FirstReaching | src/solutions/day_20.rs:15-20 | the index returned reaches the target and none before it does; `None` when none does |
| Day20.Solve1 | src/solutions/day_20.rs:3-21 | the answer is the lowest house below a million reaching the target; `None` exactly when none does, which cannot happen for a target up to ten times the last house |
| Day20.FirstHouses | src/solutions/day_20.rs:7-13 | houses 1 to 4 get 10, 30, 40 and 70 presents |
| Day20.Samples | src/solutions/day_20.rs:29-30 | a target of 10 is first reached at house 1, one of 70 at house 4 |
| Day21.NewShop | src/solutions/day_21.rs:57-82 | the shop sells five weapons, five armors and six rings |
| Day21.Quot | src/solutions/day_21.rs:42-43 | integer division truncating toward zero, as the source's `/` on `i16` |
| Day21.PlayerDamage | src/solutions/day_21.rs:39 | the player deals the inventory's damage less the boss's armor, but at least 1 |
| Day21.BossDamage | src/solutions/day_21.rs:40 | the boss deals its damage less the inventory's armor, but at least 1 |
| Day21.HitsOne | src/solutions/day_21.rs:42-43 | a blow that deals at least the remaining hit points ends the fight in one turn |
| Day21.HitsAtLeastOne | src/solutions/day_21.rs:42-43 | a fighter with hit points left needs at least one blow to fall |
| Day21.HitsStep | src/solutions/day_21.rs:42-43 | one blow takes one turn off the turns still needed |
| Day21.FightFormula | src/solutions/day_21.rs:38-46 | the turn-by-turn fight, player first, is won exactly when the player needs no more turns than the boss |
| Day21.WinsIsFight | src/solutions/day_21.rs:38-46 | the closed formula `wins` agrees with simulating the fight |
| Day21.Singles | src/solutions/day_21.rs:85-89 | the one-item permutations: each index once |
| Day21.PairRow | src/solutions/day_21.rs:90 | the ordered pairs starting with one given ring |
| Day21.PairsFrom | src/solutions/day_21.rs:90 | the ordered pairs of different rings whose first ring is at or after a given one |
| Day21.Pairs | src/solutions/day_21.rs:90 | all `n (n - 1)` ordered pairs of different rings |
| Day21.ArmorRows | src/solutions/day_21.rs:100-102 | the product rows for one weapon: every armor choice with every ring choice |
| Day21.Product | src/solutions/day_21.rs:100-102 | the product holds exactly every combination of the three choices |
| Day21.SinglesExactly | src/solutions/day_21.rs:85 | a single index is listed exactly when it names an item |
| Day21.WeaponChoicesExactly | src/solutions/day_21.rs:85-92 | exactly one weapon is bought |
| Day21.ArmorChoicesExactly | src/solutions/day_21.rs:86-93 | zero or one armor is bought |
| Day21.RingSelectionPair | src/solutions/day_21.rs:90 | a two-ring choice is two different rings |
| Day21.RingChoicesExactly | src/solutions/day_21.rs:88-98 | zero, one or two different rings are bought |
| Day21.ChoicesExactly | src/solutions/day_21.rs:84-103 | the inventories are exactly the purchases the shop rules allow |
| Day21.InventoryCount | src/solutions/day_21.rs:84-103 | the stock gives 5 × 6 × 37 = 1110 inventories |
| Day21.Pick | src/solutions/day_21.rs:101 | the items named by a choice's indices, in order |
| Day21.Buy | src/solutions/day_21.rs:101 | an inventory holds one to four items |
| Day21.Inventories | src/solutions/day_21.rs:84-103 | one inventory per allowed choice, that choice's items |
| Day21.InventoriesComplete | src/solutions/day_21.rs:84-103 | every allowed purchase is among the inventories |
| Day21.CheapestWin | src/solutions/day_21.rs:10-15 | the least cost of a winning inventory; `None` exactly when none wins |
| Day21.NoWinningInventory | src/solutions/day_21.rs:10-15 | no listed inventory wins exactly when no allowed purchase wins |
| Day21.Cheapest | src/solutions/day_21.rs:10-15 | the least cost over every allowed purchase that wins |
| Day21.Solve1 | src/solutions/day_21.rs:6-16 | the answer is the cheapest winning purchase in the fixed shop; `None` where the source panics |
| Day22.Cost | src/solutions/day_22.rs:237-245 | every spell costs at least 53 mana |
| Day22.Turns | src/solutions/day_22.rs:246-253 | a timed spell lasts 5 or 6 turns |
| Day22.NewBook | src/solutions/day_22.rs:195-224 | the book holds the five spells, each once |
| Day22.NewGame | src/solutions/day_22.rs:60-71 | the player moves first, nothing is spent and no effect is active |
| Day22.State | src/solutions/day_22.rs:165-173 | a game goes on while both live, is won when only the boss is dead, and is lost when the player is dead |
| Day22.ApplyEffects | src/solutions/day_22.rs:74-84 | visiting the active effects in any order gives the same mana, armor and boss hit points |
| Day22.Tick | src/solutions/day_22.rs:93-99 | every timer drops by one, and exactly the effects that still have time left remain |
| Day22.Cast | src/solutions/day_22.rs:109-145 | a cast hands the turn to the boss and moves the spell's cost from the mana to the mana spent |
| Day22.Play | src/solutions/day_22.rs:73-163 | the turn computed step by step gives exactly the successor games |
| Day22.PlayerTurnsMembers | src/solutions/day_22.rs:103-146 | the player's successors are exactly one cast of each affordable spell whose effect is not active |
| Day22.PlayerMoves | src/solutions/day_22.rs:101-146 | on the player's turn, after the effects, the successors are exactly the legal casts |
| Day22.InBook | src/solutions/day_22.rs:195-224 | every spell is in the book |
| Day22.NoMoveNoSuccessor | src/solutions/day_22.rs:103-108 | a player with no castable spell has no successor game |
| Day22.SpentManaGrows | src/solutions/day_22.rs:113-154 | a turn never lowers the mana spent: a cast adds its cost, a boss turn adds nothing |
| Day22.ManaNeverNegative | src/solutions/day_22.rs:107 | a spell is only cast with enough mana, so mana never goes negative |
| Day22.TimersStayValid | src/solutions/day_22.rs:93-132 | every effect timer stays between 1 and its spell's duration |
| Day22.RecastOnExpiry | src/solutions/day_22.rs:94-132 | an effect on its last turn can be cast again the same turn, at full duration |
| Day22.BossAttack | src/solutions/day_22.rs:148-161 | the boss's turn deals its damage less the shield's armor, at least 1; mana gains only Recharge's 101, the boss loses only Poison's 3 hit points, the timers tick, and mana spent, the boss's damage and the spell book stay as they were |
| Day22.EffectsWin | src/solutions/day_22.rs:86-91 | when poison kills the boss the only successor is the same game with the boss dead, and it is won |
| Day22.TurnsAlternate | src/solutions/day_22.rs:111-152 | player and boss alternate |
| Day22.SuccessorsMonotone | src/solutions/day_22.rs:73-163 | no successor has spent less mana |
| Day22.LeadsSpent | src/solutions/day_22.rs:73-163 | along any line of play the mana spent never drops |
| Day22.OriginChild | src/solutions/day_22.rs:18-23 | a successor of a game reachable from the start is reachable |
| Day22.CoverAfterExpansion | src/solutions/day_22.rs:17-27 | after one expansion every cheaper win is still reachable from a queued game |
| Day22.Expand | src/solutions/day_22.rs:18-26 | one expansion lowers the best cost to every won successor's cost and queues every ongoing successor cheaper than the best, keeping every queued game reachable; every new queue entry is an ongoing successor cheaper than the best cost known before the expansion |
| Day22.Consider | src/solutions/day_22.rs:18-25 | a won successor lowers the best cost to at most its own, still witnessed by a reachable win; an ongoing successor cheaper than the best is queued; nothing else joins the queue, so a successor that costs as much as the best or more is never queued |
| Day22.Solve1 | src/solutions/day_22.rs:7-30 | the answer is the mana of a reachable won game, or `i32::MAX` when there is none; once the queue empties no reachable win costs less, so a finished search that found a win returns the least cost of a win |
| Day22.Sample226 | src/solutions/day_22.rs:73-163 | against a boss with 13 hit points and 8 damage, a player with 10 hit points and 250 mana wins for 226 mana: Poison, then Magic Missile |
| Day22.Sample641 | src/solutions/day_22.rs:73-163 | against a boss with 14 hit points, the same player wins for 641 mana: Recharge, Shield, Drain, Poison, Magic Missile |
| Day22.StepWeakened | src/solutions/day_22.rs:73-163 | while a boss with `d` fewer hit points survives the effects, every turn against the stronger boss is also a turn against the weaker one, differing only in the boss's hit points |
| Day22.LeadsWeakened | src/solutions/day_22.rs:73-163 | a win reachable from a game gives a win no dearer against the same game with a weaker boss |
| Day22.WeakerBossNoDearer | src/solutions/day_22.rs:7-30 | for every cost of a win against a boss, some win against the same boss with fewer hit points costs no more, for a player who starts alive |
| Day22.CheapestMonotone | src/solutions/day_22.rs:7-30 | raising the boss's hit points never lowers the least cost of a win |
| Day23.Target | src/solutions/day_23.rs:50-60 | a taken jump lands on `ip + offset`, a negative target wrapping round to a huge `usize` |
| Day23.Step | src/solutions/day_23.rs:36-65 | `hlf` halves, `tpl` triples and `inc` increments its register and moves on by one; jumps only move the pointer; no other register changes |
| Day23.ExecAdd | src/solutions/day_23.rs:30-67 | running `f` then `g` instructions is running `f + g` |
| Day23.ExecHalted | src/solutions/day_23.rs:32-34 | a halted machine stays as it is |
| Day23.NegativeJumpHalts | src/solutions/day_23.rs:50 | a jump before the first instruction halts the program |
| Day23.Computer.State | src/solutions/day_23.rs:12-16 | the computer's state is its registers and pointer |
| Day23.Computer.constructor | src/solutions/day_23.rs:19-28 | both registers start at zero, the pointer at the first instruction |
| Day23.Computer.Execute | src/solutions/day_23.rs:36-65 | one instruction changes the registers and pointer as one step of the machine |
| Day23.Computer.Run | src/solutions/day_23.rs:30-67 | the loop leaves the computer in the state reached by that many steps, and reports whether the program halted |
| Day23.Initial | src/solutions/day_23.rs:19-28 | the starting machine has both registers at zero and the pointer at 0 |
| Day23.Solve1 | src/solutions/day_23.rs:5-9 | the answer is register B of the halted machine; `None` exactly when it has not halted |
| Day23.SampleRun | src/solutions/day_23.rs:135-139 | the sample halts with A = 2 and B = 0 |
| Day24.ExtendOne | src/solutions/day_24.rs:30-32 | one more package, not yet used, put in front of a partial group |
| Day24.ExtendAll | src/solutions/day_24.rs:30-32 | every partial group extended by every package not in it |
| Day24.DistinctCons | src/solutions/day_24.rs:30-32 | a selection repeats no package exactly when its tail repeats none and its head is not in its tail |
| Day24.Selections | src/solutions/day_24.rs:30-32 | the `i`-permutations of the packages: exactly the sequences of `i` different indices |
| Day24.Matching | src/solutions/day_24.rs:33 | exactly the selections whose weights add up to the group sum |
| Day24.SelectionLength | src/solutions/day_24.rs:29-39 | a selection never has more packages than there are |
| Day24.DistinctElems | src/solutions/day_24.rs:30-32 | a sequence with no repeats has as many different elements as its length |
| Day24.RangeCard | src/solutions/day_24.rs:29-39 | there are `n` indices below `n` |
| Day24.SmallestFrom | src/solutions/day_24.rs:26-42 | the groups returned reach the group sum, are the smallest that do, and include every group of that size; none is returned only when no group does |
| Day24.Target | src/solutions/day_24.rs:27 | the group sum is the total divided by the number of groups, rounded down |
| Day24.Entanglements | src/solutions/day_24.rs:44-46 | one product of weights per group |
| Day24.MinimalLeast | src/solutions/day_24.rs:19-23 | the least entanglement is non-negative and belongs to a smallest group |
| Day24.Solve | src/solutions/day_24.rs:13-24 | the answer is the least entanglement among the smallest groups that reach the group sum; `None` where the source never finds one |
| Day24.SamplePairs | src/solutions/day_24.rs:55-76 | in the sample no single package weighs 15 or 20, and the pairs weighing 20 or 15 have entanglement at least 99 or 44 |
| Day24.SampleSum | src/solutions/day_24.rs:56 | the sample packages weigh 60 in all |
| Day24.PairSolve | src/solutions/day_24.rs:13-24 | where no single package reaches the sum and the cheapest pair does, that pair's entanglement is the answer |
| Day24.SampleThreeGroups | src/solutions/day_24.rs:55-59 | three groups of the sample give 99 |
| Day24.SampleFourGroups | src/solutions/day_24.rs:72-76 | four groups give 44 |
| Day25.Next | src/solutions/day_25.rs:10-16 | the filling order goes up the diagonal, and from the top row to the start of the next diagonal |
| Day25.TriangleClosed | src/solutions/day_25.rs:12-13 | the triangle numbers are `k (k + 1) / 2` |
| Day25.TriangleSum | src/solutions/day_25.rs:12-14 | the triangle of a sum splits into two triangles and a rectangle |
| Day25.IndexIsDiagonal | src/solutions/day_25.rs:10-16 | the paper formula is the number of cells on earlier diagonals plus the column |
| Day25.FirstCell | src/solutions/day_25.rs:10-16 | row 1, column 1 is the first code |
| Day25.FillingOrder | src/solutions/day_25.rs:10-16 | the next cell in the filling order gets the next index, so the formula numbers the cells in filling order |
| Day25.Code | src/solutions/day_25.rs:18-27 | every code after the first is below the modulus |
| Day25.ProductFits | src/solutions/day_25.rs:22 | multiplying a code by 252533 never overflows a `u64` |
| Day25.CalculateNth | src/solutions/day_25.rs:18-27 | the loop computes the `n`-th code |
| Day25.Solve1 | src/solutions/day_25.rs:5-8 | the answer is the code at the cell's index |
| Day25.Sample | src/solutions/day_25.rs:52-56 | row 4, column 2 is the 12th code, 32451966 |
| Arrangements.PermutationsExactly | src/solutions/day_09.rs:13 | the permutations of a sequence are exactly the sequences with the same elements |
| Arrangements.PermutationsSound | src/solutions/day_13.rs:13 | every permutation listed has the same elements |
| Arrangements.PermutationsComplete | src/solutions/day_13.rs:13 | every rearrangement is listed |
| Arrangements.PermutationOfDistinct | src/solutions/day_09.rs:13 | a permutation of distinct names visits each name once |

## Left out

- `src/solutions/day_04.rs` and `src/solutions/day_08.rs` are not part of this model. Day 4's answer lives in an MD5 library, and day 8's comes from chained library string replacements.
- Parsing is not modelled, except the day 18 grid rows (`Day18.Parse`, `Day18.New`) and day 7's `u16` literals (`Day07.ParseU16`). The rest covers regular-expression captures, `from_str`, `Instruction::new`, `Sue::new`, `Code::new` and the like. Every other operation takes the parsed records, numbers or instructions directly.
- Tests whose expected values come from the puzzle input files are left out, because those files are not part of this model. Only the inline sample tests are stated.
- Fixed-width arithmetic is modelled on unbounded integers. Overflow, wrap-around and their panics are not modelled for these:
  - `i8` in day 18: the grid coordinates, and the truncating casts `x as i8` and `lights[0].len() as i8`, which wrap for a side of 128 or more. Day18.WellFormed and Day18.Parse accept grids of any size.
  - `u8` in day 10: the digits and the run counts.
  - `i16` in days 1, 13 and 21.
  - `i32` in days 3 (house coordinates), 6, 12 and 22, and in day 23's jump arithmetic `ip as i32 + offset`. Day23.Target adds on unbounded integers before the wrap described below.
  - `i64` in day 15: the ingredient totals and their product.
  - `u16` in days 9, 16 and 17.
  - `u32` in days 2, 14 and 23.
  - `u64` in day 24, and in day 25's cell index `index_of`, whose products overflow for rows and columns near 2^32. Day25.IndexOf computes it on unbounded integers.
  - `usize` counts everywhere.

  Three exceptions are modelled:
  - day 7's 16-bit wires are `bv16`;
  - day 23's jump to a negative target wraps modulo 2^64;
  - day 25's `u64` product is proved never to overflow.
- Day23.Step: `tpl` and `inc` on a `u32` register are unbounded. The source panics or wraps past `u32::MAX`.
- Hash-map and hash-set iteration order is not modelled, because every consumer is order-independent. Sets and maps are Dafny's own.
- `itertools`' `permutations` and `iproduct` are restated by what they list, not in the library's order. Every consumer takes a minimum, a maximum, a count or a membership.
- Day22.Solve1: the search loop runs under a `fuel` bound on expansions. `exhausted` reports that the bound ran out, and minimality is promised only when it did not. Termination of the unbounded loop is not proved.
- Day22.NewGame: the starting mana and hit points (500 and 50) are parameters.
- Day22.Sample226 and Day22.Sample641: prove that a win at 226 and at 641 mana is reachable, not that no cheaper win exists; that would take the whole game tree. The 641 win needs the full five-spell book: 641 = 229 + 113 + 73 + 173 + 53, which is no sum of 173s and 53s, so Poison and Magic Missile alone cannot reach it.
- Day23.Computer.Run and Day23.Solve1: execution stops after `fuel` instructions. `None` stands for a program that has not halted by then, where the source would keep running.
- Day11.Solve: the increment loop stops after `fuel` candidates and answers `None` past that, where the source would keep incrementing. Passwords are restricted to lowercase letters. The source increments any byte; on lowercase input that agrees with this model.
- Day11.SampleOneOrder and Day11.SampleTwoOrder: the sample answers are proved valid and reached by incrementing. That no valid password comes earlier is not proved.
- Day24.SmallestFrom: the search stops at groups of every package. Past that size the source's `for i in 1..` loop never returns; the model returns no groups and `Solve` gives `None`.
- The day 9 sample (605), the day 13 sample (330), the day 14 points sample (689) and the day 18 6×6 sample (4 lights) are not proved. Evaluating them enumerates too many permutations or grid cells for the verifier. The general properties those answers rest on are proved.
- Day15.SampleScores: proves the score of the optimal split of each sample (62842880 and 57600000). It does not prove that no other of the 176851 splits scores higher.
- Day06.Solve1 and Day06.Solve2: the grid side `n` is a parameter standing for the source's fixed 1000. A non-empty rectangle reaching past the grid is excluded by `Fits`, where the source would panic on an index of 1000 or more. An empty rectangle (a corner past the opposite one) is accepted wherever it lies and changes nothing, as in the source, whose loops then never run.
- Day20.Solve1: the sieve covers the fixed million houses, as the source does. `Sieve` itself takes any size.
- Day12: `\d` is read as the ASCII digits `0` to `9`. The regex crate also matches other Unicode decimal digits, which the puzzle input does not contain.
- Day05: the strings are modelled as they come, one per line; the source's `.` in its pattern excludes only newlines, which a line never holds.
- Day19: molecules and rules are character strings and matches are found per character. The source works on UTF-8 byte offsets, which agree for the ASCII element names of the puzzle.
- Day21: item names are dropped; they play no part in the answer.
- Day16: the tape is a constant map; the Sue records are taken as already parsed.
