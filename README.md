# Advent of Code 2022, days 3, 4 and 6–13, in Dafny

This project models ten puzzle solvers from a Rust Advent of Code 2022
repository, one module per day. Each day reads a puzzle text and computes the
two answers for it.

- **Day 3** (rucksacks). An item is scored by a letter table. Part 1 scores the
  first item the two halves of a rucksack share. Part 2 scores the first item
  common to each group of three rucksacks.
- **Day 4** (camp cleanup). The input is parsed into pairs of inclusive section
  ranges. Part 1 counts the pairs where one range contains the other. Part 2
  counts the pairs that overlap.
- **Day 6** (tuning trouble). The answer is the end of the first window of 4, or
  of 14, distinct characters.
- **Day 7** (a file system). A terminal session of `cd` and `ls` is replayed into a
  map from directory path to files. Each size is added to every enclosing path.
  Part 1 sums the totals below 100000. Part 2 is the smallest total that frees
  enough disk space.
- **Day 8** (tree house). Part 1 counts the trees that are visible from outside the
  grid. Part 2 finds the highest scenic score.
- **Day 9** (rope bridge). A rope of 2 knots, or of 10, follows the moves of its
  head. Each answer counts the positions its tail visited.
- **Day 10** (cathode-ray tube). A trace of the X register is kept, one entry per
  cycle. Part 1 sums the signal strengths. Part 2 draws a 40×6 screen.
- **Day 11** (monkeys). Monkeys inspect and throw items for 20 rounds with relief,
  or for 10000 rounds without it. The answer, the "monkey business", is the
  product of the two largest inspection counts.
- **Day 12** (hill climbing). A breadth-first search runs over the grid's climbing
  graph. Part 1 starts from `S`. Part 2 takes the fewest steps from any `a`.
- **Day 13** (distress signal). Nested packets are compared by their ordering.
  Part 1 sums the indices of the ordered pairs. Part 2 sorts all packets and two
  divider packets, then multiplies the dividers' places.

The shared modules:

- `Wrappers` holds `Option` and `Result`.
- `Parsing` holds the nom combinators the days use: `tag`, `alpha1`, `is_a`,
  `multispace1` and `complete::u32`.
- `Text` holds `str::lines`, `split_whitespace` and `split`.

The source's form is kept:

- Loops that update variables are methods with invariants. They are proved
  against a specification function, as in day 6 part 1, day 7's replay and
  aggregation, day 8's four viewing loops, day 9's rope loops, and day 10's
  trace, signal sum and screen. The same holds for day 12's breadth-first search
  and its grid scans.
- Day 9's ten-knot rope is an `array` updated in place.
- Day 11's `Monkey` is a class whose `inspect` changes its fields.
- Iterator chains and parsers are functions.

Every parser has a printer, with a lemma that parsing the printed text gives
the value back; day 8's grid reader has one too (`GridShow`). Every answer has lemmas that tie it to what it means.

## Model

| member | source | states |
|---|---|---|
| Parsing.TakeWhile1 | day12/src/lib.rs:21 | `alpha1`/`is_a`: succeeds exactly when the first character qualifies; then the input is split into a non-empty run of qualifying characters and a rest that does not start with one |
| Parsing.Tag | day7/src/lib.rs:51 | `tag(t)` succeeds exactly when `t` is a prefix, and returns what follows it |
| Parsing.Multispace1 | day11/src/lib.rs:137 | `multispace1` succeeds exactly when the input starts with a space, tab, CR or LF, and consumes at least one |
| Parsing.ParseNatShow | day4/src/lib.rs:15-19 | `complete::u32` reads back the decimal numeral of any number when a non-digit follows it |
| Parsing.ParseUnsignedShow | day9/src/lib.rs:33 | `parse::<u32>` reads back the decimal text of any number |
| Parsing.ParseSigned | day10/src/lib.rs:26 | `parse::<i32>` accepts exactly an optionally signed numeral; a `-` gives a value ≤ 0, otherwise ≥ 0 |
| Parsing.ParseSignedShow | day10/src/lib.rs:26 | `parse::<i32>` reads back the text of any integer |
| Text.Lines | day9/src/lib.rs:83-86 | `lines()`: no line holds a newline; there are no lines exactly when the text is empty |
| Text.LinesUnLines | day9/src/lib.rs:83-86 | lines without newlines, no inner one ending in CR and a non-empty last one, joined by newlines, split back into themselves |
| Text.Words | day9/src/lib.rs:23 | `split_whitespace` yields only non-empty words with no whitespace |
| Text.WordsUnWords | day9/src/lib.rs:23 | words joined by single spaces split back into themselves |
| Text.Split | day7/src/lib.rs:138 | `split("/")` yields at least one part, none holding `/` |
| Text.JoinSplit | day7/src/lib.rs:138 | joining the parts of a split with the separator restores the text |
| Text.SplitJoin | day7/src/lib.rs:146-150 | splitting a join of separator-free parts gives the parts back |
| Day3.Alphabet | day3/src/lib.rs:5-6 | 52 letters, `a`…`z` then `A`…`Z` |
| Day3.LetterScores | day3/src/lib.rs:5-9 | the table's keys are exactly the ASCII letters; `a`…`z` score 1…26 and `A`…`Z` 27…52 |
| Day3.ScoresRangeInjective | day3/src/lib.rs:5-9 | every score lies in 1…52 and different letters score differently |
| Day3.Find | day3/src/lib.rs:18-20 | `chars().find`: a result is a character of the text that passes the test; there is none exactly when no character passes |
| Day3.FindAt | day3/src/lib.rs:18-20 | the character at `k` is the one found exactly when no earlier character passes |
| Day3.FindFirst | day3/src/lib.rs:18-20 | a found character has an occurrence with only rejected characters before it |
| Day3.Compartments | day3/src/lib.rs:14-16 | both compartments hold half the rucksack, rounded down |
| Day3.CompartmentsOf | day3/src/lib.rs:14-16 | two equal halves plus at most one odd character split back into those halves |
| Day3.CommonIff | day3/src/lib.rs:18-21 | an item is found exactly when the compartments share a character, and it lies in both |
| Day3.RucksackPriority | day3/src/lib.rs:18-23 | a rucksack's priority lies in 1…52 |
| Day3.Part1Lines | day3/src/lib.rs:11-25 | the sum over the rucksacks lies between their number and 52 times it |
| Day3.Part1LinesSum | day3/src/lib.rs:11-25 | the total is the sum of the per-rucksack priorities |
| Day3.Part1 | day3/src/lib.rs:4-27 | part 1 lies between the line count and 52 times it |
| Day3.Chunks | day3/src/lib.rs:38 | `chunks(3)`: every group holds 1…3 lines and all but the last hold 3; a multiple of three lines gives a third as many full groups |
| Day3.FlattenChunks | day3/src/lib.rs:38 | the groups, concatenated, are the lines |
| Day3.LastChunk | day3/src/lib.rs:38 | with a remainder, the last group holds exactly the remainder |
| Day3.BadgeIff | day3/src/lib.rs:43-49 | a badge is found exactly when some character is in all three rucksacks, and it is in all three |
| Day3.GroupPriority | day3/src/lib.rs:43-51 | a group's priority lies in 1…52 |
| Day3.Part2Groups | day3/src/lib.rs:36-53 | the sum over the groups lies between their number and 52 times it |
| Day3.ValidPart2Lines | day3/src/lib.rs:38-49 | an input part 2 accepts (no `bags[2]` panic) has a multiple of three lines |
| Day3.Part2 | day3/src/lib.rs:29-55 | part 2 lies between a third of the line count and 52 times that |
| Day3.SamplePriorities | day3/src/lib.rs:61-66 | the test rucksacks' priorities are 16, 38, 42, 22, 20, 19 |
| Day3.SamplePart1 | day3/src/lib.rs:61-72 | the test rucksacks sum to 157 |
| Day3.SamplePart2 | day3/src/lib.rs:61-77 | the test groups have badges `r` and `Z` and sum to 70 |
| Day3.SampleText | day3/src/lib.rs:61-66 | the test text splits into the six rucksacks |
| Day3.SampleAnswers | day3/src/lib.rs:61-77 | both parts accept the test text and give 157 and 70 |
| Day4.Sections | day4/src/lib.rs:12-22 | a parsed range consumes input |
| Day4.SectionsShow | day4/src/lib.rs:12-22 | a range printed as `start-end` parses back when a non-digit follows |
| Day4.Line | day4/src/lib.rs:24-33 | a parsed pair consumes input |
| Day4.LineShow | day4/src/lib.rs:24-33 | a pair printed as `a-b,c-d` parses back |
| Day4.MoreLinesShow | day4/src/lib.rs:35-42 | the newline-separated tail of a listing parses back into its pairs |
| Day4.SectionAssignments | day4/src/lib.rs:35-42 | `separated_list1` succeeds exactly when a first line parses, and then yields at least one pair |
| Day4.SectionAssignmentsShow | day4/src/lib.rs:35-42 | any non-empty list of pairs, printed one per line, parses back and leaves the rest untouched |
| Day4.TrailingNewline | day4/src/lib.rs:35-46 | a final newline is left unparsed and the pairs are still all read |
| Day4.OneContainsOtherIff | day4/src/lib.rs:49-56 | part 1's filter is symmetric; for non-empty ranges it holds exactly when one range's ends lie within the other's |
| Day4.OverlapIff | day4/src/lib.rs:67-74 | part 2's filter is symmetric; for non-empty ranges it is the interval intersection test, and it holds exactly when some section lies in both |
| Day4.ContainsOverlaps | day4/src/lib.rs:49-74 | a pair that part 1 counts is counted by part 2 too |
| Day4.Count | day4/src/lib.rs:47-57 | `filter(..).count()` is at most the number of pairs |
| Day4.CountPositions | day4/src/lib.rs:47-57 | the count is the number of positions whose pair passes the filter |
| Day4.CountMono | day4/src/lib.rs:47-75 | a stronger filter counts no more |
| Day4.Assignments | day4/src/lib.rs:45-46 | a valid input yields at least one pair |
| Day4.Part1 | day4/src/lib.rs:44-60 | part 1 is at most the number of pairs |
| Day4.Part2 | day4/src/lib.rs:62-78 | part 2 is at most the number of pairs |
| Day4.PartsOrdered | day4/src/lib.rs:44-78 | part 1 ≤ part 2 ≤ the number of pairs |
| Day4.SampleCounts | day4/src/lib.rs:84-101 | the test pairs give 2 and 4 |
| Day4.SampleParses | day4/src/lib.rs:84-89 | the printed test pairs parse back |
| Day6.UniqueIff | day6/src/lib.rs:11-12 | the set test (set size equals window length) holds exactly when no two positions hold the same character |
| Day6.UniqueSlice | day6/src/lib.rs:11-12 | every piece of a window that passes the test passes it too |
| Day6.Find | day6/src/lib.rs:27-34 | `windows().enumerate().find()`: a result is a passing window at or after the start with no passing window before it; none means no window passes |
| Day6.Part1 | day6/src/lib.rs:3-19 | the loop gives 0 exactly when no window of 4 passes, and otherwise the end of the first passing window |
| Day6.Part2 | day6/src/lib.rs:21-37 | when a window of 14 passes, the answer is the end of the first one |
| Day6.PacketBeforeMessage | day6/src/lib.rs:3-37 | the packet marker comes no later than the message marker |
| Day6.SamplePacket | day6/src/lib.rs:45-48 | the first test string gives 7 |
| Day6.SampleMessage | day6/src/lib.rs:73-76 | the first test string gives 19 |
| Day7.ParseFile | day7/src/lib.rs:40-48 | a parsed file line consumes input |
| Day7.FileLineShow | day7/src/lib.rs:40-48 | `size name` parses back into the file entry |
| Day7.DirLineShow | day7/src/lib.rs:50-54 | `dir name` parses back into the directory entry |
| Day7.NotAnEntry | day7/src/lib.rs:40-61 | a line starting with `$` is not an entry, which ends the listing |
| Day7.ParseEntriesShow | day7/src/lib.rs:59-61 | newline-separated entries parse back |
| Day7.LsShow | day7/src/lib.rs:56-64 | `$ ls` followed by its listing parses back |
| Day7.CdClassified | day7/src/lib.rs:66-77 | `$ cd ..` gives Up, `$ cd /` gives Root, and `$ cd name` gives Down(name) |
| Day7.CdShow | day7/src/lib.rs:66-77 | every `cd` command parses back |
| Day7.ParseOperationShow | day7/src/lib.rs:79-81 | every command parses back |
| Day7.ParseCommands | day7/src/lib.rs:79-84 | a successful parse yields at least one command |
| Day7.ParseCommandsShow | day7/src/lib.rs:79-84 | any non-empty session, printed, parses back into its commands |
| Day7.Replay | day7/src/lib.rs:88-134 | the replay loop builds exactly the directory map of the session's specification |
| Day7.RecordListing | day7/src/lib.rs:102-131 | an `ls` appends exactly its file lines to the current path's files, creating the entry if needed |
| Day7.LsCreatesEntry | day7/src/lib.rs:102-111 | after an `ls` the current path is a key, and no other path changes |
| Day7.ContextFromCds | day7/src/lib.rs:92-101 | the current path depends only on the `cd` commands |
| Day7.FilesOfSize | day7/src/lib.rs:112-131 | the recorded files' sizes add up to the listing's file lines, directories counting nothing |
| Day7.RecordedIsListed | day7/src/lib.rs:91-134 | the map's total size is the total of all listed file sizes |
| Day7.Aggregate | day7/src/lib.rs:136-155 | the aggregation loop gives every prefix of a recorded path the total of the files under it |
| Day7.PrefixesReached | day7/src/lib.rs:143-153 | the keys of the sizes are exactly the prefixes of recorded paths |
| Day7.EnclosingIsLarger | day7/src/lib.rs:143-153 | an enclosing directory's total is at least that of any directory within it |
| Day7.RootEncloses | day7/src/lib.rs:143-153 | the root path `""` encloses every absolute path |
| Day7.TotalHoldsOwnFiles | day7/src/lib.rs:136-155 | a directory's total includes its own files |
| Day7.SumSmall | day7/src/lib.rs:157-161 | the loop sums exactly the totals below 100000 |
| Day7.SmallSumBounds | day7/src/lib.rs:157-161 | that sum is at least each small total and at most the sum of all totals |
| Day7.Part1 | day7/src/lib.rs:86-163 | part 1 is the sum of the directory totals below 100000 of the parsed session |
| Day7.SmallestAbove | day7/src/lib.rs:240-247 | the loop yields a total above the need that no other such total undercuts |
| Day7.Part2 | day7/src/lib.rs:165-248 | part 2 exceeds the space to free, is at most the root's total, is some directory's total, and is the smallest such |
| Day8.Grid | day8/src/lib.rs:64-70 | one row per line and one digit value per character |
| Day8.GridShow | day8/src/lib.rs:64-70 | a grid of single digits printed one row per line, its last row not empty, reads back as that grid |
| Day8.VisibleIffClearRay | day8/src/lib.rs:1-14 | on a square grid, a tree is visible exactly when it is on the border or all trees in some direction are lower |
| Day8.ViewDistanceSees | day8/src/lib.rs:21-58 | the viewing distance counts the lower trees and then the first tree at least as tall, or runs to the edge |
| Day8.SeesUnique | day8/src/lib.rs:21-58 | that distance is the only one with this property |
| Day8.ClearRay | day8/src/lib.rs:9-58 | all trees in a direction are lower exactly when the view runs to the edge |
| Day8.ViewUp | day8/src/lib.rs:20-28 | the upward loop gives the viewing distance upwards |
| Day8.ViewDown | day8/src/lib.rs:30-38 | the downward loop gives the viewing distance downwards |
| Day8.ViewLeft | day8/src/lib.rs:40-48 | the leftward loop gives the viewing distance to the left |
| Day8.ViewRight | day8/src/lib.rs:50-58 | the rightward loop gives the viewing distance to the right |
| Day8.ScenicScore | day8/src/lib.rs:16-61 | `scenic_score` is the product of the four viewing distances |
| Day8.BorderScoreZero | day8/src/lib.rs:16-61 | a tree on the border scores 0 |
| Day8.ScoreBound | day8/src/lib.rs:16-61 | a score is at most the product of the distances to the four edges |
| Day8.VisibleCountBounds | day8/src/lib.rs:72-79 | the count is at least the 4·(n−1) border trees and at most n² |
| Day8.CountVisible | day8/src/lib.rs:72-79 | the double loop counts the visible trees of the n×n square |
| Day8.Part1 | day8/src/lib.rs:63-82 | part 1 is the number of visible trees of the parsed grid |
| Day8.TableMaxIsHighest | day8/src/lib.rs:93-101 | the largest entry of the score table is the highest scenic score |
| Day8.HighestScore | day8/src/lib.rs:93-101 | the double loop finds a score no tree beats and some tree attains (0 on an empty grid) |
| Day8.Part2 | day8/src/lib.rs:84-104 | part 2 is the highest scenic score of the parsed grid |
| Day9.DirectionOf | day9/src/lib.rs:25-31 | exactly `R`, `U`, `L` and `D` name a direction |
| Day9.ParseCommand | day9/src/lib.rs:18-37 | a line fails exactly when its first word is not a direction, with "Unknown direction" |
| Day9.ParseShowCommand | day9/src/lib.rs:18-37 | a printed command parses back |
| Day9.UnknownDirection | day9/src/lib.rs:30 | any other first word gives the error |
| Day9.GetDirection | day9/src/lib.rs:43-67 | the four diagonal cases and the axis case together are the sign of the offset on each axis |
| Day9.MoveKnot | day9/src/lib.rs:69-80 | a knot moves exactly when it does not touch its leader, and by at most one on each axis; a leader at most two away is touched again afterwards |
| Day9.Follow | day9/src/lib.rs:134-136 | each knot moves after the one before it has moved |
| Day9.FollowTaut | day9/src/lib.rs:134-136 | a taut rope whose head moved by one stays taut |
| Day9.StepKeepsTaut | day9/src/lib.rs:125-136 | one head step keeps every pair of neighbouring knots touching |
| Day9.RopesStayTaut | day9/src/lib.rs:82-142 | both ropes, started at the origin, stay taut under any moves |
| Day9.VisitedExtend | day9/src/lib.rs:101-102 | one more step adds exactly the new tail position to the visited set |
| Day9.VisitedBounds | day9/src/lib.rs:88-106 | the start is visited, and at most one more position per step |
| Day9.Commands | day9/src/lib.rs:83-86 | one command per line, each that line's parse |
| Day9.TailCommand | day9/src/lib.rs:94-103 | the inner loop performs `count` steps of the two-knot rope and records each tail position |
| Day9.TailVisits | day9/src/lib.rs:88-106 | the loop gives the number of tail positions over all the moves |
| Day9.Part1 | day9/src/lib.rs:82-107 | part 1 counts the positions the tail of the 2-knot rope visits |
| Day9.FollowInPlace | day9/src/lib.rs:134-136 | the in-place loop over the array leaves the knots that follow its head |
| Day9.StepInPlace | day9/src/lib.rs:127-136 | moving the head in place and then the knots is one rope step |
| Day9.RopeCommand | day9/src/lib.rs:125-138 | the inner loop performs `count` steps of the 10-knot rope and records each tail position |
| Day9.KnotVisits | day9/src/lib.rs:117-139 | the loop gives the number of tail positions of the 10-knot rope |
| Day9.Part2 | day9/src/lib.rs:110-142 | part 2 counts the positions the last of 10 knots visits |
| Day10.ParseCommand | day10/src/lib.rs:18-31 | a line parses exactly when its first word is `noop` or `addx`; otherwise "Unknown direction"; `noop` has argument 0 and arguments are 32-bit |
| Day10.ParseShowCommand | day10/src/lib.rs:18-31 | a printed command parses back |
| Day10.Commands | day10/src/lib.rs:35-38 | one command per line, each that line's parse |
| Day10.RunLength | day10/src/lib.rs:42-53 | the trace has one entry per `noop` and two per `addx` |
| Day10.RunAt | day10/src/lib.rs:42-53 | during each cycle of a command the trace holds the register as the commands before it left it |
| Day10.Trace | day10/src/lib.rs:39-53 | the loop builds exactly that trace |
| Day10.SignalSum | day10/src/lib.rs:55-61 | the loop sums `i · trace[i-1]` for `i` = 20, 60, 100, … below the trace length |
| Day10.SignalReadsSamplePoints | day10/src/lib.rs:55-61 | the sum depends only on the entries at those cycles |
| Day10.ShortTrace | day10/src/lib.rs:55-61 | a trace of at most 20 entries sums to 0 |
| Day10.Part1 | day10/src/lib.rs:34-63 | part 1 is the signal sum of the parsed program's trace, with X starting at 1 |
| Day10.PixelLit | day10/src/lib.rs:91-95 | a pixel is lit exactly when the sprite is within one column of it |
| Day10.ScreenLayout | day10/src/lib.rs:86-98 | the screen is 6 rows of 40 pixels, each row ended by a newline, the pixel at row c and column i lit by cycle 40·c+i |
| Day10.Draw | day10/src/lib.rs:86-98 | the double loop draws exactly that screen |
| Day10.Part2 | day10/src/lib.rs:65-100 | part 2 is the screen of the parsed program's trace |
| Day11.ParseMonkey | day11/src/lib.rs:131-159 | a parsed monkey consumes input |
| Day11.OperationShow | day11/src/lib.rs:87-103 | a printed operation parses back |
| Day11.TestShow | day11/src/lib.rs:105-129 | a printed test parses back |
| Day11.NatsShow | day11/src/lib.rs:139-143 | a printed item list parses back |
| Day11.MonkeyShow | day11/src/lib.rs:131-159 | a printed monkey parses back with no inspections |
| Day11.MonkeysShow | day11/src/lib.rs:162 | monkeys printed with blank lines between them parse back |
| Day11.Worry | day11/src/lib.rs:47-67 | with the magic number the new worry lies below it, and a third of it with relief; without reduction it is the operation's value |
| Day11.Recipient | day11/src/lib.rs:70-76 | a divisible worry goes to the true recipient, any other to the false one |
| Day11.Monkey.constructor | day11/src/lib.rs:131-159 | a monkey object holds the parsed state |
| Day11.Monkey.Inspect | day11/src/lib.rs:40-68 | `inspect` returns the new worry of the front item, removes it and counts one more inspection |
| Day11.Monkey.Catch | day11/src/lib.rs:174-178 | `push_back` adds the item at the back |
| Day11.ThrowItem | day11/src/lib.rs:171-178 | one throw changes the monkeys as one step of the game |
| Day11.TakeTurn | day11/src/lib.rs:170-179 | a turn changes the monkeys as the monkey's turn of the game |
| Day11.PlayRound | day11/src/lib.rs:169-180 | a round is every monkey's turn in order |
| Day11.PlayRounds | day11/src/lib.rs:168-181 | the round loop plays the given number of rounds |
| Day11.Build | day11/src/lib.rs:162 | the monkeys are distinct objects in the parsed states |
| Day11.ThrowOne | day11/src/lib.rs:171-178 | a throw keeps every monkey's operation and test |
| Day11.RoundsKeepItems | day11/src/lib.rs:168-181 | the number of items never changes |
| Day11.TurnCounts | day11/src/lib.rs:170-179 | a turn adds the monkey's item count to its inspections and leaves the others' alone |
| Day11.MagicFits | day11/src/lib.rs:163-166 | the product of the divisors is a multiple of each divisor |
| Day11.RoundsCongruent | day11/src/lib.rs:194-212 | playing with worries taken modulo the product keeps every item congruent to the unreduced game |
| Day11.ReductionKeepsCounts | day11/src/lib.rs:192-212 | so the reduced game counts exactly the unreduced game's inspections |
| Day11.SortCounts | day11/src/lib.rs:182 | the sort is ascending and a permutation |
| Day11.MonkeyBusinessIsBestPair | day11/src/lib.rs:182-188 | the product of the top two counts is the largest product of two different monkeys' counts, and it is attained |
| Day11.MonkeyBusinessSingle | day11/src/lib.rs:182-188 | with one monkey the product is its count |
| Day11.Solve | day11/src/lib.rs:161-190 | the answer is the monkey business after the rounds |
| Day11.Part1 | day11/src/lib.rs:161-190 | 20 rounds with relief, worries reduced by the product of the divisors |
| Day11.Part2 | day11/src/lib.rs:192-221 | the monkey business of 10000 rounds of the unreduced game |
| Day12.ParseGrid | day12/src/lib.rs:18-23 | the grid parses exactly when the input starts with a letter, and gives non-empty letter rows |
| Day12.ParseGridOf | day12/src/lib.rs:18-23 | letter rows joined by newlines parse back |
| Day12.Elevation | day12/src/lib.rs:68-80 | heights lie in 1…26, `a`…`z` map to 1…26, `S` is as low as `a` and `E` as high as `z` |
| Day12.HeightsOf | day12/src/lib.rs:68-80 | every cell's height is its letter's elevation |
| Day12.CellAt | day12/src/lib.rs:98-101 | `grid.get(x).and_then(get(y))` finds a cell exactly when the indices lie within the grid |
| Day12.EdgeRule | day12/src/lib.rs:90-113 | an edge leads exactly to an adjacent cell of the grid at most one higher |
| Day12.ClimbIsDirectional | day12/src/lib.rs:103 | a step two higher is not an edge, but its reverse is; a step down or level is an edge |
| Day12.GraphOf | day12/src/lib.rs:82-116 | the graph's nodes are exactly the grid's cells |
| Day12.BuildGraph | day12/src/lib.rs:82-116 | the double loop builds exactly that graph |
| Day12.GraphOfClosed | day12/src/lib.rs:96-114 | every edge leads to a node of the graph |
| Day12.DistanceIsShortestWalk | day12/src/lib.rs:25-48 | the distance is one less than the length of the shortest walk; there is none exactly when no walk exists |
| Day12.DistanceToItself | day12/src/lib.rs:33-36 | a start that is the goal is 0 steps away |
| Day12.DistanceBelowNodeCount | day12/src/lib.rs:25-48 | a distance is less than the number of nodes |
| Day12.ShortestPath | day12/src/lib.rs:25-48 | the breadth-first search returns the distance from start to goal, or nothing when the goal is unreachable |
| Day12.LastMarker | day12/src/lib.rs:56-66 | the scan keeps the last cell holding the marker; there is none exactly when no cell holds it |
| Day12.FindStartAndGoal | day12/src/lib.rs:53-66 | the scan places start and goal at the last `S` and `E`, or at (0, 0) |
| Day12.LowsAre | day12/src/lib.rs:126-133 | the start points are exactly the `S` and `a` cells, at height 1 |
| Day12.FindStartPointsAndGoal | day12/src/lib.rs:123-139 | the scan collects those start points and the last `E` |
| Day12.FewestStepsFrom | day12/src/lib.rs:191-202 | the minimum over the start points of their distance, 9999 standing for unreachable; none exactly when there are no start points |
| Day12.SentinelMeansUnreachable | day12/src/lib.rs:191-202 | on graphs of fewer than 10000 nodes, 9999 means no start point reaches the goal |
| Day12.Part1 | day12/src/lib.rs:50-118 | part 1 is the distance from `S` to `E` in the grid's graph |
| Day12.Part2 | day12/src/lib.rs:120-203 | part 2 is the fewest steps from any lowest cell to `E` |
| Day13.Size | day13/src/lib.rs:11-15 | every packet has a positive size, the measure of the comparison's recursion |
| Day13.CmpPromoted | day13/src/lib.rs:43-69 | comparing an integer with a list compares the one-element list |
| Day13.CmpFlip | day13/src/lib.rs:60-69 | swapping the operands reverses the ordering |
| Day13.EqIsCmpEqual | day13/src/lib.rs:43-69 | `eq` holds exactly when `cmp` says Equal |
| Day13.CmpTransitive | day13/src/lib.rs:60-69 | the ordering is transitive, both for ≤ and for Equal |
| Day13.CmpReflexive | day13/src/lib.rs:60-69 | every packet equals itself |
| Day13.ShorterListComesFirst | day13/src/lib.rs:156-160 | a list that runs out first is smaller |
| Day13.ParsePacket | day13/src/lib.rs:71-82 | a parsed packet consumes input |
| Day13.ParseShow | day13/src/lib.rs:23-82 | a displayed packet parses back when no digit follows |
| Day13.ParsePairs | day13/src/lib.rs:84-91 | a successful parse yields at least one pair |
| Day13.ParsePairsShow | day13/src/lib.rs:84-91 | pairs printed with blank lines between them parse back |
| Day13.IndexSumBounds | day13/src/lib.rs:93-107 | the sum of the ordered pairs' 1-based indices is at most n(n+1)/2; it is 0 exactly when no pair is ordered and the maximum exactly when all are |
| Day13.IndexSumAppend | day13/src/lib.rs:95-104 | a further pair adds its index exactly when it is ordered |
| Day13.Flatten | day13/src/lib.rs:114-115 | two packets per pair |
| Day13.Sort | day13/src/lib.rs:118 | the sort is a permutation |
| Day13.SortSorted | day13/src/lib.rs:118 | the sort is ordered under `cmp` and a permutation |
| Day13.FindEq | day13/src/lib.rs:127-136 | `find` with `==` gives the first position equal to the packet; none exactly when no position is |
| Day13.CountLessPermutation | day13/src/lib.rs:114-118 | the number of packets below a divider does not depend on their order |
| Day13.FirstEqualPosition | day13/src/lib.rs:118-136 | in a sorted list the first equal packet sits after exactly the smaller ones |
| Day13.DividersOrdered | day13/src/lib.rs:111-112 | `[[2]]` comes before `[[6]]` |
| Day13.DividerProductIs | day13/src/lib.rs:109-138 | the dividers' places are one more than the packets below `[[2]]` and two more than those below `[[6]]`, whatever the sort's order of equal packets |
| Day13.SampleOrders | day13/src/lib.rs:144-164 | the first seven test pairs are ordered as the puzzle says |
| Day13.DeepPairOutOfOrder | day13/src/lib.rs:165-166 | the eighth test pair is out of order |
| Day13.SamplePart1 | day13/src/lib.rs:144-172 | the test pairs give 13 |
| Day13.SamplePart2 | day13/src/lib.rs:144-178 | the test pairs give 140 |

## Left out

- nom's internals are not modelled. Each used combinator is written as a function on strings with the same success, failure and consumption. Errors carry no position or kind.
- Machine integer widths are not modelled beyond the bounds stated below, so overflow and wrap-around are absent: day 4's and day 13's `u32`, day 6's `as u32`, day 7's `u32` sums, day 8's `u32` total, day 9's and day 10's `i32` arithmetic, day 11's `u64` worries and day 12's `u8` heights.
- Numeric parsers accept numerals of any size. nom's `u32` and `parse::<u32>` reject values above 2³²−1. Day 9 and day 10 bound the parsed value in their input predicates instead.
- Printing is left out: `dbg!`, day 13's `println!` of the sorted packets, and the final `to_string()` of most answers. Day 11 keeps its `to_string()` as the decimal text.
- Iteration order of `HashMap`, `HashSet` and `BTreeMap` is not modelled. The maps and sets are Dafny maps and sets, and the model's loops visit keys in any order; the proofs show the result does not depend on it.
- Day 12's `shortest_path` keeps a whole path per node but returns only its length. The model keeps the length, a distance map. Which shortest path is kept is not modelled.
- The library sorts are modelled as insertion sorts: day 11's `sort_by_key` and day 13's `sort`. Day 11 uses only the top two counts, and day 13 only the first equal positions, and the proofs show neither depends on how equal elements are placed.
- The test inputs of days 4, 6 and 13 are replayed as values, not parsed from the test texts. Day 3's is replayed both as values and as its text. Day 6 replays only its first example. The tests of days 7 to 12 are not replayed.
- Day11.Part1: the count is stated for the source's own game, where relief follows the magic reduction. It is not related to the unreduced game, because taking a third does not commute with the reduction.
- Day11.Worry: the lhs of an operation is parsed but ignored, as in the source; only `old` on the left is meaningful.
- Day3.Part1 and Day3.Part2 state bounds; the exact totals are Part1Lines and Part2Groups over the per-line priorities, which Part1LinesSum and the sample lemmas pin down.
- Day3.Compartments slices by characters. The source slices by bytes and panics on a non-character boundary; the model assumes ASCII rucksacks.
- Day4.Part1 and Day4.Part2 state only the bound; what they count is given by Count and CountPositions.
- Day8.Part1 requires every row to hold at least n−1 trees, where n is the number of rows. This is stronger than the source needs. `visible` returns early for border cells, and its short-circuiting `||` reads a column of rows below `i` only when the upward scan fails. So the source also answers grids whose rows are shorter where they are never read: `"000\n050\n\n"` (three rows, the last empty) gives 9, and any grid of at most two rows, such as `"\n\n"`, gives 4.
- Day8.Part2 requires every row to hold at least n trees. `scenic_score` indexes every cell of the n by n square, and rows shorter than that panic. Trailing input after the digits is read as more rows.
- Day12.Part1 and Day12.Part2 return an Option where the source's `unwrap` panics on a missing path or an empty start list.
- Day11.Part1 and Day11.Part2 require every recipient to be a monkey of the input and every divisor to be positive. This is stronger than the source needs. The source panics only when an item is actually thrown to a missing monkey (`get_mut(recepient).unwrap()`), or when a monkey that holds items divides by 0. A monkey whose false recipient lies out of range, but whose items all pass the test, runs without a panic. Example: one monkey with item 2, `new = old * 1`, `divisible by 1`, true to 0 and false to 5 gives "20" for part 1.
- Day12.Part1 and Day12.Part2 require every row to be as long as the first, and every letter to be `S`, `E` or lowercase. Both are stronger than the source needs. The graph loop uses `grid[0].len()` as every row's width, so a later row that is longer panics only when the search pops one of its extra cells. For example, a first row `SbcdefghijklmnopqrstuvwxyE` above 26 `a`s and a `z` gives 25 for part 1. An uppercase letter other than `S` or `E` underflows `c as u8 - 'a' as u8` only in a debug build; in a release build it wraps to a large height.
- Day12.Part1 requires an `S`, or an `a` at (0, 0). Otherwise the default start is not a node of the graph and the source's `graph[&node]` panics.
- Day7.Part2 requires the root's total to lie between 40000000 and 70000000. Outside that range the source's `u32` subtraction underflows.
- Day10.Part2 requires a trace of at least 240 cycles. The source's screen loop indexes that far.
- Day13.Part1 and Day13.Part2 carry no contract of their own. Their meaning is stated by IndexSumBounds and DividerProductIs.
