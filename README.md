# Advent of Code 2025 solutions, modelled in Dafny

This project models the puzzle solutions of an Advent of Code 2025 repository written in Rust.
It covers days 1 to 6, 8, 9 and 10. Each day's `main.rs` becomes one module:

| module | file | day | what the solution computes |
|---|---|---|---|
| `Dial` | `dial.dfy` | 1 | a safe dial turned by `L`/`R` moves; counts the turns that end on 0 and the clicks that reach 0 |
| `RepeatedIds` | `repeated_ids.dfy` | 2 | the sum of the product ids in the given ranges that are a digit block repeated |
| `Joltage` | `joltage.dfy` | 3 | the largest number made of `k` digits picked in order from each battery bank |
| `Rolls` | `rolls.dfy` | 4 | the paper rolls a forklift can reach (fewer than four neighbouring rolls), once and repeatedly |
| `Ingredients` | `ingredients.dfy` | 5 | the ingredient ids inside fresh ranges, and the size of the union of the ranges |
| `Worksheet`, `WorksheetExamples` | `worksheet.dfy`, `worksheet_examples.dfy` | 6 | a worksheet of problems read by rows (part 1) and by right-to-left digit columns (part 2) |
| `Circuits` | `circuits.dfy` | 8 | junction boxes joined closest-first; the sizes of the circuits and the edge that makes one circuit |
| `Tiles` | `tiles.dfy` | 9 | the largest rectangle with two red tiles at opposite corners |
| `Machines` | `machines.dfy` | 10 | machines read from their text, and the linear constraints handed to the integer solver |

Shared modules:
- `Text` (`text.dfy`) holds Rust's `trim`, `split`, `split_whitespace`, `split_ascii_whitespace`, `str::parse` for integers, and `to_string`.
- `Sorting` (`sorting.dfy`) is a stable insertion sort on an array. It stands for Rust's stable `sort` (2025/5/main.rs:71) and `sort_by` (days 8 and 9).
- `Arithmetic` (`arithmetic.dfy`) holds facts about multiplication and division.

Day 7's `main.rs` is an unfinished stub. It does not compile and has no puzzle logic, so nothing of it is modelled.

Conventions:
- Integers are unbounded `nat`/`int`. A `parse::<u64>` or `parse::<i32>` checks the type's range.
- Text is `seq<char>`.
- A panic on malformed input (`unwrap`, `expect`, an out-of-range slice) is a `None` result.
- Where the Rust code loops or mutates, the model is a `method` with a loop. It is proved equal to a function that states the result. The properties of that function are proved as lemmas.
- State that the Rust code updates in place is a `class`:
  - `Dial.State` (the dial and its counters);
  - `Worksheet.ProblemIterator` (the per-row character iterators);
  - `Circuits.AdjacencyList` (the adjacency map).

Where the code disagrees with the puzzle statement, the model follows the code. Four defects are corrected; the members marked "(corrected)" below give the corrected behaviour, and each defect is explained under "## Findings". The as-written behaviour is modelled beside the corrected members and compared to it.

## Model

| member | source | states |
|---|---|---|
| `Dial.ParseMove` | 2025/1/main.rs:27-34 | a trimmed line is a move exactly when it has a first character and the rest parses as an `i32`; the move is `+n` after `R`, `-n` after `L` and 0 after any other letter |
| `Dial.ClicksClosedForm` | 2025/1/main.rs:35-39 | the clicks of one turn that land on 0, counted one by one, are `(p+d) div 100` to the right and `(p-1) div 100 - (p+d-1) div 100` to the left (floor division) |
| `Dial.ZeroPassesCountsClicks` | 2025/1/main.rs:35-39 | (corrected) the corrected part-2 increment is exactly the number of clicks that reach 0, for every start position and every turn |
| `Dial.AsWrittenMissesLeftLanding` | 2025/1/main.rs:35-39 | the part-2 increment as written is the number of clicks on 0 minus one exactly when a left turn ends on a multiple of 100, and equal to it otherwise |
| `Dial.AsWrittenCounterexample` | 2025/1/main.rs:35-39 | from position 1, the move `L1` reaches 0 once, but the increment as written is 0 |
| `Dial.AsWrittenNeverUnderflows` | 2025/1/main.rs:37-38 | the `zero_count -= 1` for a left turn from 0 never makes the increment negative |
| `Dial.TurnCounts` | 2025/1/main.rs:35-43 | (corrected) a turn puts the dial at `(p + d) mod 100`, adds the clicks that reach 0 to the part-2 count, and adds 1 to the part-1 count exactly when the turn ends on 0 |
| `Dial.RunOneMoreLine` | 2025/1/main.rs:24-26 | the reading after one more line is the reading so far stepped by that line |
| `Dial.State.constructor` | 2025/1/main.rs:14-20 | a new dial is at 50 with both counts 0 |
| `Dial.State.TurnBy` | 2025/1/main.rs:35-43 | (corrected) the new position is the old one plus the move, modulo 100; the part-2 count grows by the clicks that reach 0; the part-1 count grows by one exactly when the dial ends on 0 |
| `Dial.State.ApplyLine` | 2025/1/main.rs:24-49 | a line that parses as a move turns the dial by it; any other line leaves the state unchanged |
| `Dial.SimulateDialPosition` | 2025/1/main.rs:23-52 | (corrected) a fresh state whose counts are the reading after every line of the input |
| `Dial.FoldLines` | 2025/1/main.rs:24-51 | (corrected) the state after the lines is the start reading run through the lines' moves |
| `Dial.GetPart1Password` | 2025/1/main.rs:54-56 | the number of turns that end on 0 |
| `Dial.GetPart2Password` | 2025/1/main.rs:57-59 | (corrected) the number of clicks that reach 0 |
| `Dial.ExamplePasswords` | 2025/1/tests.rs:17-26 | the example's ten moves end at 32, with part 1 = 3 and part 2 = 6 |
| `Dial.SecondTestPassword` | 2025/1/tests.rs:28-31 | the moves L51 R2 L1 R1 L1 give part 2 = 4 |
| `Dial.AsWrittenSamePart1` | 2025/1/main.rs:40-43 | the fold as written and the corrected fold agree on the position and on part 1 for every sequence of moves |
| `Dial.AsWrittenExample` | 2025/1/tests.rs:23-26 | as written, the example gives part 2 = 4, not the expected 6 |
| `Dial.AsWrittenSecondTest` | 2025/1/tests.rs:28-31 | as written, L51 R2 L1 R1 L1 gives part 2 = 2, not the expected 4 |
| `RepeatedIds.ParseRange` | 2025/2/main.rs:17-24 | both bounds of a parsed range fit in a `u64` |
| `RepeatedIds.ParseRangeRoundTrip` | 2025/2/main.rs:17-24 | `lower-upper`, written in decimal, parses back to the same range |
| `RepeatedIds.ParseRangeNeedsTwoBounds` | 2025/2/main.rs:18-21 | text with no `-` gives no range |
| `RepeatedIds.Part1IsTwoCopies` | 2025/2/main.rs:49-55 | part 1 flags an id exactly when it is some string written twice |
| `RepeatedIds.Part2IsRepetition` | 2025/2/main.rs:57-69 | part 2 flags an id exactly when it is a non-empty block written two or more times |
| `RepeatedIds.Part1ImpliesPart2` | 2025/2/main.rs:49-69 | every non-empty id part 1 flags, part 2 flags too |
| `RepeatedIds.Part2FromRepeat` | 2025/2/main.rs:57-69 | any non-empty block written two or more times is flagged by part 2 |
| `RepeatedIds.Part2FlagsThreeBlocks` | 2025/2/tests.rs:25 | `123123123` is flagged |
| `RepeatedIds.Part2FlagsOneCharacter` | 2025/2/tests.rs:26 | `1111` is flagged |
| `RepeatedIds.Part2FlagsFourBlocks` | 2025/2/tests.rs:27 | `68686868` is flagged |
| `RepeatedIds.Part2InvalidShortExamples` | 2025/2/tests.rs:28-32 | `22`, `333` and `700700` are flagged |
| `RepeatedIds.Part2FlagsTwoLongBlocks` | 2025/2/tests.rs:30 | `453278453278` is flagged |
| `RepeatedIds.Part2FlagsFourShortBlocks` | 2025/2/tests.rs:31 | `865865865865` is flagged |
| `RepeatedIds.Part2FlagsThreeLongBlocks` | 2025/2/tests.rs:33 | `678906789067890` is flagged |
| `RepeatedIds.Part2ValidExamples` | 2025/2/tests.rs:35-36 | `1` and `234` are not flagged |
| `RepeatedIds.SumInvalidIds` | 2025/2/main.rs:25-34 | the sum is over the range's flagged ids not seen before; the seen set grows by exactly the range's flagged ids |
| `RepeatedIds.FindInvalidIds` | 2025/2/main.rs:37-47 | the total is the sum of the distinct flagged ids over all ranges, or `None` when a range does not parse |
| `RepeatedIds.InvalidInAllIsUnion` | 2025/2/main.rs:38-46 | an id is summed exactly when it is flagged and some range contains it; an id in several ranges is summed once |
| `RepeatedIds.Part1TotalAtMostPart2` | 2025/2/main.rs:49-69 | the ids part 1 sums are among those part 2 sums, so the part-1 total is at most the part-2 total |
| `Joltage.MaxDigit` | 2025/3/main.rs:7-18 | `Some` exactly for non-empty text; it gives the 1-based position and value of the first occurrence of the largest character |
| `Joltage.GreedyIsSubsequence` | 2025/3/main.rs:27-35 | the digits picked are a subsequence of the bank |
| `Joltage.GreedyIsLexMaximal` | 2025/3/main.rs:27-35 | no subsequence of the same length is lexicographically larger than the picks |
| `Joltage.GreedyIsMaximal` | 2025/3/main.rs:20-39 | on a bank of digits, no `k`-digit subsequence has a larger decimal value than the picks |
| `Joltage.BankJoltageDefined` | 2025/3/main.rs:36-38 | with 1 to 19 cells (so the number fits a `u64`) and a bank of digits at least that long, the joltage is the value of the picks |
| `Joltage.MaxBankJoltage` | 2025/3/main.rs:20-39 | the loop computes the bank's joltage, and `None` where the source panics |
| `Joltage.SumAllDefined` | 2025/3/main.rs:48-50 | the sum is defined exactly when every bank's joltage is |
| `Joltage.TotalJoltageDefined` | 2025/3/main.rs:41-51 | with 1 to 19 cells and digit banks at least that long, the total is defined |
| `Joltage.MaxJoltage` | 2025/3/main.rs:41-51 | the result is the sum of the joltages of the non-blank trimmed lines, `None` if any is `None` |
| `Joltage.ExampleJoltageDescending` | 2025/3/tests.rs:1-9 | the bank `987654321111111` gives 98 |
| `Joltage.ExampleJoltageEndsHigh` | 2025/3/tests.rs:1-9 | the bank `811111111111119` gives 89 |
| `Joltage.ExampleJoltageRepeating` | 2025/3/tests.rs:1-9 | the bank `234234234234278` gives 78 |
| `Joltage.ExampleJoltageScattered` | 2025/3/tests.rs:1-9 | the bank `818181911112111` gives 92 |
| `Joltage.ExampleTotalTwoCells` | 2025/3/tests.rs:11-12 | the example's banks with 2 cells total 357 |
| `Rolls.NeighbourCounts` | 2025/4/main.rs:30-39 | the convolution gives each cell its number of rolls among the eight neighbours |
| `Rolls.NeighboursIgnoreCentre` | 2025/4/main.rs:30-34 | the kernel's 0 centre: a cell's own content never changes its count |
| `Rolls.NeighboursOutside` | 2025/4/main.rs:37-38 | zero padding: a position two or more steps outside the grid counts no rolls |
| `Rolls.NeighboursMonotone` | 2025/4/main.rs:30-39 | removing rolls never raises a count |
| `Rolls.Erode` | 2025/4/main.rs:41-50 | a roll stays exactly when it has four or more neighbouring rolls; the result is a sub-grid |
| `Rolls.AccessibleMask` | 2025/4/main.rs:41-50 | a cell is removed exactly when it holds a roll with fewer than four neighbouring rolls |
| `Rolls.ErodeCount` | 2025/4/main.rs:41-50 | the rolls left plus the rolls removed are the rolls before |
| `Rolls.ErodeFixpoint` | 2025/4/main.rs:58-62 | a round changes the grid exactly when it removes a roll |
| `Rolls.DirectlyAccessible` | 2025/4/main.rs:28-51 | the returned grid is one round of removal, and the count is the number of rolls removed |
| `Rolls.ErodeRow` | 2025/4/main.rs:41-50 | one row: a cell stays a roll exactly when it was one with four or more neighbours; the count is the rolls dropped |
| `Rolls.SettledMeaning` | 2025/4/main.rs:53-65 | the rounds end in a sub-grid with no accessible roll; the total removed is the drop in the roll count |
| `Rolls.SettledIsLargestStable` | 2025/4/main.rs:53-65 | every sub-grid whose rolls all have four or more neighbouring rolls survives every round, so the result is the largest such sub-grid |
| `Rolls.AccessibleRolls` | 2025/4/main.rs:53-65 | the loop returns the total number of rolls removed until none is accessible |
| `Rolls.ScanCells` | 2025/4/main.rs:12-21 | the loop reads the cells of `.`/`@` text, skips newlines, counts the rows, and fails on any other character |
| `Rolls.GridOfTextMeaning` | 2025/4/main.rs:10-26 | (corrected) the text gives a grid exactly when its cells divide evenly into its rows; then the grid has one row per line and holds the cells in order |
| `Rolls.ParseRender` | 2025/4/main.rs:10-26 | (corrected) a rectangular grid written as lines parses back to itself, with or without a final newline |
| `Rolls.ParseInput` | 2025/4/main.rs:10-26 | (corrected) the grid read from the text, or `None` when a character is not `.`, `@` or a newline, or the cells do not divide evenly into the lines |
| `Rolls.AsWrittenAgrees` | 2025/4/main.rs:22 | when trimming removed between one character and as many characters as the text has rows, the rounded-down column count as written equals the corrected one |
| `Rolls.AsWrittenRejectsUnterminated` | 2025/4/main.rs:22-25 | as written, a rectangular grid with no final newline always fails the shape check |
| `Rolls.AsWrittenCounterexample` | 2025/4/main.rs:22-25 | `@@\n@@` fails as written, while the corrected parse gives the 2×2 grid |
| `Ingredients.ParseRangeRoundTrip` | 2025/5/main.rs:21-34 | `lower-upper`, written in decimal, parses back to the same range |
| `Ingredients.ParseRangeIgnoresRest` | 2025/5/main.rs:22-33 | the pieces after the second `-` are never read |
| `Ingredients.Size` | 2025/5/main.rs:50-52 | the size of a well-formed range is the number of ids in it |
| `Ingredients.IntervalSize` | 2025/5/main.rs:50-52 | `upper - lower + 1` ids between the bounds, and none when `upper < lower` |
| `Ingredients.MergeSymmetric` | 2025/5/main.rs:42-47 | merging is symmetric |
| `Ingredients.MergeMeaning` | 2025/5/main.rs:42-47 | two well-formed ranges merge exactly when they share an id; the merge is well formed and holds exactly the ids of both |
| `Ingredients.MergeExamples` | 2025/5/tests.rs:18-64 | the nine merges of the test |
| `Ingredients.CoveredMeaning` | 2025/5/main.rs:37-39 | an id is covered exactly when some range contains it |
| `Ingredients.CoveredPermutation` | 2025/5/main.rs:71 | reordering the ranges does not change the ids they cover |
| `Ingredients.FreshCountAll` | 2025/5/main.rs:55-68 | every ingredient is counted exactly when every ingredient is fresh |
| `Ingredients.FreshCountByCover` | 2025/5/main.rs:55-68 | the count depends only on the ids the ranges cover |
| `Ingredients.CountAvailableFresh` | 2025/5/main.rs:55-68 | the number of ingredients some range contains, or `None` when an id does not parse |
| `Ingredients.SortRanges` | 2025/5/main.rs:71 | the sorted ranges are a permutation, ordered by lower then upper bound |
| `Ingredients.MergeFoldMeaning` | 2025/5/main.rs:72-86 | folding sorted well-formed ranges gives well-formed ranges separated by gaps, covering the same ids |
| `Ingredients.MergeAll` | 2025/5/main.rs:72-86 | the loop computes that fold |
| `Ingredients.TotalSizeCounts` | 2025/5/main.rs:87 | the sizes of separated ranges add up to the number of ids they cover |
| `Ingredients.CountAllFresh` | 2025/5/main.rs:70-88 | the number of distinct ids the ranges cover |
| `Ingredients.ParseInputMeaning` | 2025/5/main.rs:90-113 | the input parses exactly when it has a second section and every non-blank range line parses; the ranges are those lines parsed in order, and the ingredients are the second section's non-blank trimmed lines |
| `Ingredients.ParseInputNeedsBlankLine` | 2025/5/main.rs:103-106 | an input with no blank line gives no inventory |
| `Ingredients.ExampleFreshness` | 2025/5/tests.rs:1-16 | of the example ids, 5, 11 and 17 are fresh; 1, 8 and 32 are not |
| `Ingredients.ExampleAvailable` | 2025/5/tests.rs:66-70 | three of the example ingredients are fresh |
| `Ingredients.ExampleAllFresh` | 2025/5/tests.rs:72-76 | the example ranges cover 14 ids |
| `Worksheet.ParseOperator` | 2025/6/main.rs:18-24 | `+` is addition, `*` is multiplication, and every other character is no operator |
| `Worksheet.Apply` | 2025/6/main.rs:26-37 | no numbers give the operator's identity (0 or 1); one number gives itself |
| `Worksheet.ApplyConcat` | 2025/6/main.rs:26-37 | the fold of two joined lists combines the folds of each |
| `Worksheet.ApplyPermutation` | 2025/6/main.rs:26-37 | the answer does not depend on the order of the numbers |
| `Worksheet.GrandTotalFails` | 2025/6/main.rs:126-135 | an unsupported operator among those used makes part 1 fail |
| `Worksheet.ReadNumbers` | 2025/6/main.rs:115-125 | the number rows, read bottom row first, or `None` at a row that does not parse |
| `Worksheet.SumProblems` | 2025/6/main.rs:113-135 | the numbers are split into rows and columns, and the problems are summed; `None` when the numbers do not fill the rows evenly |
| `Worksheet.SumColumns` | 2025/6/main.rs:126-135 | the sum of the column answers, each column with the next operator, or `None` at an unsupported operator |
| `Worksheet.Part1` | 2025/6/main.rs:96-136 | the loop computes part 1's total |
| `Worksheet.NumbersOfTable` | 2025/6/main.rs:115-125 | rows that parse give their numbers flattened bottom row first |
| `Worksheet.MatrixTotalOfTable` | 2025/6/main.rs:126-135 | the numbers read bottom-up, put back into columns, give each column's answer |
| `Worksheet.Part1Meaning` | 2025/6/main.rs:96-136 | on a worksheet of equal number rows and a row of operators, part 1 is the sum of each column's numbers combined by its operator |
| `Worksheet.BlankColumn` | 2025/6/main.rs:65-92 | a column of spaces and exhausted rows holds no digit and spells 0 |
| `Worksheet.OperandsEnd` | 2025/6/main.rs:65-92 | (corrected) a column with no digit ends the problem |
| `Worksheet.OperandsMore` | 2025/6/main.rs:65-92 | (corrected) a column with a digit gives the number its digits spell, read top to bottom, and the problem goes on |
| `Worksheet.OperandsAsWritten` | 2025/6/main.rs:65-92 | as written, every operand of a problem is positive |
| `Worksheet.AsWrittenAgreesOnColumn` | 2025/6/main.rs:86-91 | both readings end at a column with no digit and read the same first number when it is not 0 |
| `Worksheet.AsWrittenEndsAtZeros` | 2025/6/main.rs:86-91 | a column of only `0` digits ends the problem as written, but is read as the operand 0 by the corrected reading |
| `Worksheet.AsWrittenZerosExample` | 2025/6/main.rs:86-91 | the digit rows `10` and `20` give the operands [12] as written and [12, 0] corrected |
| `Worksheet.NextProblem` | 2025/6/main.rs:54-93 | (corrected) there is an answer exactly when the first non-whitespace character of the operator row is an operator; each answer consumes part of the operator row |
| `Worksheet.SumOfAnswersStep` | 2025/6/main.rs:138-144 | part 2's sum is the first answer plus the sum of the answers after it |
| `Worksheet.ProblemIterator.constructor` | 2025/6/main.rs:45-47 | the iterator starts at the beginning of every row |
| `Worksheet.ProblemIterator.ReadColumn` | 2025/6/main.rs:65-86 | (corrected) one column is consumed from every digit row; the result is the number its digits spell, or `None` if it has no digit |
| `Worksheet.ProblemIterator.Fold` | 2025/6/main.rs:65-92 | (corrected) the problem's operands are combined by the operator, and the rows are advanced past the problem |
| `Worksheet.ProblemIterator.Next` | 2025/6/main.rs:54-93 | (corrected) the answer and the new rows are those of the next problem |
| `Worksheet.Part2` | 2025/6/main.rs:138-144 | (corrected) the loop sums every answer the iterator gives |
| `WorksheetExamples.ExampleAnswers` | 2025/6/tests.rs:1-10 | read by columns, the example's problems answer 8544, 625, 3253600 and 1058 |
| `WorksheetExamples.Part1Example` | 2025/6/tests.rs:12-15 | part 1 of the example is 4277556 |
| `WorksheetExamples.Part2Example` | 2025/6/tests.rs:17-20 | part 2 of the example is 3263827 |
| `Circuits.ParseBox` | 2025/8/main.rs:21-29 | a line with fewer than three comma pieces gives no box; a box keeps the index it was given |
| `Circuits.ParseBoxRoundTrip` | 2025/8/main.rs:21-29 | `x,y,z` written in decimal parses back to the same box |
| `Circuits.JunctionBoxes` | 2025/8/main.rs:61-69 | one box per non-empty line, numbered 0, 1, 2, … in order |
| `Circuits.ISqrt` | 2025/8/main.rs:31-33 | the integer square root: the largest `r` with `r*r <= n` |
| `Circuits.Distance` | 2025/8/main.rs:31-33 | the floor of the Euclidean distance |
| `Circuits.DistanceSymmetric` | 2025/8/main.rs:31-33 | the distance is symmetric, and 0 from a box to itself |
| `Circuits.DistanceRespectsOrder` | 2025/8/main.rs:31-33 | a smaller squared distance never gives a larger distance |
| `Circuits.PairsSound` | 2025/8/main.rs:74-76 | every edge joins boxes `i < j` |
| `Circuits.PairsComplete` | 2025/8/main.rs:74-76 | every pair `i < j` is an edge |
| `Circuits.PairsInOrder` | 2025/8/main.rs:74-76 | the edges come in the order of `tuple_combinations` |
| `Circuits.ClosestJunctionBoxes` | 2025/8/main.rs:71-80 | the edges stably sorted by distance: a permutation, in ascending distance, and equal distances in their first order |
| `Circuits.LinkedEntries` | 2025/8/main.rs:82-87 | a connection appends each end to the other's list and changes no other list |
| `Circuits.LinkedSymmetric` | 2025/8/main.rs:82-87 | a connection keeps the lists symmetric |
| `Circuits.AdjacencyList.constructor` | 2025/8/main.rs:123-127 | the fold starts from an empty map |
| `Circuits.AdjacencyList.FromBoxes` | 2025/8/main.rs:93-94 | every box starts with an empty list |
| `Circuits.AdjacencyList.Connect` | 2025/8/main.rs:82-87 | the lists after one more connection |
| `Circuits.Traverse` | 2025/8/main.rs:43-54 | the depth-first search collects exactly the boxes connected to the start |
| `Circuits.ComponentsDisjoint` | 2025/8/main.rs:39-59 | two circuits are equal or share no box |
| `Circuits.AllGraphs` | 2025/8/main.rs:39-59 | every graph returned is a circuit, every circuit is returned, the graphs are pairwise disjoint, and there are as many as circuits |
| `Circuits.MergeCount` | 2025/8/main.rs:100-105 | a connection lowers the number of circuits by at most one |
| `Circuits.IsolatedCount` | 2025/8/main.rs:93-99 | before any connection, every box is a circuit of its own |
| `Circuits.FullyConnectingEdge` | 2025/8/main.rs:89-118 | the first edge after which all boxes form one circuit, or `None` if no edge does |
| `Circuits.LargestCircuitsDetermined` | 2025/8/main.rs:128-135 | the product does not depend on the order in which the circuits were found |
| `Circuits.TopProductLargest` | 2025/8/main.rs:128-135 | with three or more circuits sorted by size, the product is of the last three sizes, and no other circuit is larger than the third of them |
| `Circuits.LargestCircuitsProduct` | 2025/8/main.rs:120-137 | the circuits of the connected boxes, each once, sorted by size; the result is the product of the three largest sizes (of all of them when there are fewer) |
| `Circuits.SortedPairsJoin` | 2025/8/main.rs:71-80 | every edge built from the boxes joins two of them |
| `Circuits.ConnectingXProduct` | 2025/8/main.rs:139-145 | the product of the x coordinates of the fully connecting edge's boxes, or `None` if there is none |
| `Tiles.ParseTile` | 2025/9/main.rs:23-29 | a line with fewer than two comma pieces gives no tile |
| `Tiles.ParseTileRoundTrip` | 2025/9/main.rs:23-29 | `x,y` written in decimal parses back to the same tile |
| `Tiles.RedTilesMeaning` | 2025/9/main.rs:104-109 | the tiles are the non-empty lines parsed one by one, and `None` when one does not parse |
| `Tiles.MaxX` | 2025/9/main.rs:51 | the largest x of the tiles |
| `Tiles.MaxY` | 2025/9/main.rs:52 | the largest y of the tiles |
| `Tiles.MaxRectangleArea` | 2025/9/main.rs:50-102 | `None` for no tiles, otherwise the larger of the two rectangles spanned by the four corner picks |
| `Tiles.SortsPermute` | 2025/9/main.rs:55-93 | each of the four sorts is a permutation |
| `Tiles.PicksNearest` | 2025/9/main.rs:55-93 | each pick is a tile, and none is nearer to its corner under the source's ordering |
| `Tiles.TopLeftEarliest` | 2025/9/main.rs:55-61 | of the tiles nearest the top-left corner, the earliest in the input is picked |
| `Tiles.CornerAreaAtMostLargest` | 2025/9/main.rs:96-101 | the corner picks never give more than the largest rectangle |
| `Tiles.CornerPicksMissLargest` | 2025/9/main.rs:96-101 | on the tiles (0,0), (0,2), (1,1) the corner picks give 3, while tiles (0,0) and (1,1) span 4 |
| `Tiles.LargestRectangleArea` | 2025/9/main.rs:50-102 | (corrected) `None` exactly for no tiles; otherwise the largest rectangle over all pairs of tiles |
| `Tiles.ExampleArea` | 2025/9/tests.rs:17-19 | the example's corner picks give 50 |
| `Machines.Bit` | 2025/10/main.rs:17-24 | an indicator is 0 when off and 1 when on |
| `Machines.BitIsParity` | 2025/10/main.rs:115-137 | after `n` toggles from off, the light has state `s` exactly when `n mod 2` is its bit |
| `Machines.LightsDefined` | 2025/10/main.rs:39-50 | the pattern reads exactly when every character is `[`, `.` or `#`; each `[` is skipped |
| `Machines.LightsOfChars` | 2025/10/main.rs:39-50 | a written pattern reads back to the same lights |
| `Machines.ParseTargetText` | 2025/10/main.rs:39-50 | `[` then a pattern then `]` reads back to that pattern, whatever follows |
| `Machines.Inner` | 2025/10/main.rs:51-71 | stripping the first and last character succeeds exactly on tokens of length two or more |
| `Machines.ParseListText` | 2025/10/main.rs:51-71 | a bracketed comma list written in decimal parses back to the same numbers |
| `Machines.ParseMachine` | 2025/10/main.rs:35-73 | fewer than two tokens gives no machine; a machine has one button per middle token and keeps its number |
| `Machines.MachineTokens` | 2025/10/main.rs:37 | a written machine splits into its pattern, its buttons and its joltages |
| `Machines.ParseMachineText` | 2025/10/main.rs:35-73 | a written machine parses back to itself |
| `Machines.ParseMachines` | 2025/10/main.rs:195-201 | one machine per non-empty trimmed line, numbered 0, 1, 2, … |
| `Machines.TogglingMeaning` | 2025/10/main.rs:120-126 | a button is among those for light `i` exactly when its wiring contains `i`; the list is in button order |
| `Machines.EnableConstraints` | 2025/10/main.rs:115-137 | one constraint per light: the presses of its buttons plus twice a free variable equal its target bit |
| `Machines.PowerConstraints` | 2025/10/main.rs:168-176 | one constraint per counter: the presses of its buttons equal its joltage |
| `Machines.PressedToggling` | 2025/10/main.rs:120-126 | a constraint's sum is the number of times the light is toggled |
| `Machines.ParityVariable` | 2025/10/main.rs:128-135 | a free variable can meet the constraint exactly when the toggles and the target have the same parity |
| `Machines.EnableConstraintsMeaning` | 2025/10/main.rs:115-137 | the presses meet every enable constraint exactly when they turn on exactly the target lights |
| `Machines.PowerConstraintsMeaning` | 2025/10/main.rs:168-176 | the presses meet every power constraint exactly when every counter reaches its joltage |
| `Text.Trim` | 2025/1/main.rs:24 | `trim` returns the slice of the text after its leading whitespace, with only whitespace after it, and leaves no whitespace at either end |
| `Text.SplitJoin` | 2025/1/main.rs:24 | joining the pieces of a split gives back the text |
| `Text.JoinSplit` | 2025/1/main.rs:24 | splitting pieces joined by the separator gives back the pieces |
| `Text.TokensJoin` | 2025/6/main.rs:106 | words joined by a separator split back into the words |
| `Text.ParseAllMeaning` | 2025/2/main.rs:41-45 | a list parses exactly when each piece does, giving each piece's value |
| `Text.ParseNumberedMeaning` | 2025/10/main.rs:195-201 | the numbered parse succeeds exactly when each line does with its own number |
| `Text.ToDecimalValue` | 2025/2/main.rs:25-34 | `to_string` writes a number whose decimal value is the number |
| `Text.ParseToDecimal` | 2025/2/main.rs:19-20 | an unsigned number written in decimal parses back to itself |
| `Text.ParseSignedDecimal` | 2025/8/main.rs:24-26 | a signed number written in decimal parses back to itself |
| `Sorting.InsertionSortPermutes` | 2025/8/main.rs:78 | sorting is a permutation |
| `Sorting.InsertionSortSorted` | 2025/8/main.rs:78 | the result is in ascending key order |
| `Sorting.InsertionSortStable` | 2025/8/main.rs:78 | items with the same key keep their order |
| `Sorting.SortBy` | 2025/5/main.rs:71 | sorting the array in place leaves it holding the stable sort of its old contents |
| `Sorting.InsertInPlace` | 2025/9/main.rs:55-60 | one insertion step: the prefix becomes the old prefix with the next item inserted, and the rest is unchanged |
| `Sorting.HeadIsEarliestMinimum` | 2025/9/main.rs:55-61 | the first item after sorting is the earliest item with the least key |
| `Sorting.SortedKeysUnique` | 2025/8/main.rs:129 | two sorted permutations of the same items have the same key sequence |

## Left out

- `Dial.State.TurnBy`: the `i32` sum `direction * rotations + position` and the `u32` `zero_count` (2025/1/main.rs:35-36) are unbounded here, so overflow is not modelled.
- `Dial.ParseMove`: the model takes the first character off the line. The source slices one byte (`&current[1..]`, 2025/1/main.rs:28), so a line starting with a multi-byte character panics there and is not modelled.
- `Joltage.MaxBankJoltage`: `slice.len()` and the slicing (2025/3/main.rs:17, 29) count bytes, where the model counts characters; they agree on ASCII digit banks only.
- `Joltage.MaxJoltage`: the `u64` sum and `10u64.pow` are unbounded here, so overflow is not modelled.
- `Rolls.ParseInput`: `input.len()` (2025/4/main.rs:22) counts bytes, where the model counts characters; they agree on `.`/`@` text.
- `Rolls.ParseInput`: text that trims to nothing (such as `\n`) gives a 1×0 grid here, and the model then counts 0 rolls. The source passes that zero-sized array to `conv`, whose `expect` (2025/4/main.rs:37-39) relies on non-zero dimensions; whether the convolution panics there depends on the `ndarray_conv` crate, which is not part of this model, so no panic is modelled.
- `RepeatedIds.FindInvalidIds`: the `u64` sum is unbounded, so overflow is not modelled.
- `RepeatedIds.SumInvalidIds`: the `HashSet` of seen ids is a mathematical set; its iteration order does not affect the sum.
- `Ingredients.CountAllFresh`: requires every range to be well formed (`lower <= upper`). The source merges a malformed range too, and may then return a value or underflow in `size`; that case is not modelled.
- `Ingredients.CountAvailableFresh`: the `u64` count and `Ingredients.CountAllFresh`'s `u64` sum are unbounded.
- `Worksheet.Part1`: the `u64` folds and sums are unbounded, so overflow is not modelled.
- `Worksheet.Part2`: the `u64` folds and sums are unbounded, so overflow is not modelled.
- `Circuits.Distance`: the `i64` differences and squares (2025/8/main.rs:31-33) are unbounded here, so overflow is not modelled.
- `Circuits.FullyConnectingEdge`: requires at least two boxes and edges between the given boxes. With fewer boxes the source underflows or hits its `expect`, and that panic is not modelled.
- `Circuits.AllGraphs`: requires symmetric adjacency lists, which every list built by `connect_junction_boxes` is (`Circuits.LinkedSymmetric`).
- `Circuits.Traverse`: requires the start box to have a list, as every box reached through `get_all_graphs` does.
- `Circuits.LargestCircuitsProduct`: the `take(1000)` in `main` (2025/8/main.rs:153) is the caller's choice of edge prefix; the method takes the edges already cut.
- `Circuits.ConnectingXProduct`: the `i64` product is unbounded.
- `Tiles.MaxRectangleArea`: the `i64` keys and areas (2025/9/main.rs:56-100) are unbounded, so overflow is not modelled.
- `Machines.Inner`: the source strips a token's first and last bytes (`&s[1..s.len() - 1]`, 2025/10/main.rs:53 and 63), where the model strips characters. A token whose first or last character is multi-byte makes the source panic, and that panic is not modelled; `Machines.ParseMachine` inherits this.
- `Machines.EnableConstraints`: the SCIP model is built and solved by a foreign solver (2025/10/main.rs:82-154). Only the constraints are modelled; the minimum is stated as the specification `FewestToEnable`, with no solving.
- `Machines.PowerConstraints`: the same holds for `to_power` (2025/10/main.rs:157-193) and `FewestToPower`. The `i32` variable bounds and the float-to-`u32` rounding of the solution are left out.
- `enable_all_machines` and `power_all_machines` (2025/10/main.rs:203-213) sum solver results, so they are not modelled. The day-10 tests (7 and 33) are not proved: no lemma shows which totals meet `FewestToEnable` and `FewestToPower` on the example machines.
- The worked examples of days 2 (1227775554 and 4174379265), 3 with 12 cells (3121910778619), 4 (13 and 43) and 8 (40 and 25272) are not proved. Unfolding those computations on the full inputs is far beyond what the verifier can do in a proof; the general properties above cover them.
- `usize` is taken to be 64 bits wide.
- `dbg!` and `println!` output, each `main`, the file reading, `helpers.rs` and `gen_boilerplate.rs` are not part of this model.

## Findings

| source | as written | input that shows it | evidently intended | confidence | as-written member | corrected member |
|---|---|---|---|---|---|---|
| 2025/1/main.rs:36-39 | a left turn that ends exactly on 0 (or on any multiple of 100) does not count that landing as a pass of 0 | the worked example gives part 2 = 4; `L51\nR2\nL1\nR1\nL1` gives 2 | every click that reaches 0 counts: 6 and 4, as 2025/1/tests.rs:25 and :30 expect | high; not executed | `Dial.ZeroPassesAsWritten`, `Dial.AsWrittenMissesLeftLanding`, `Dial.AsWrittenCounterexample`, `Dial.AsWrittenExample`, `Dial.AsWrittenSecondTest` | `Dial.ZeroPasses`, `Dial.ZeroPassesCountsClicks`, `Dial.State.TurnBy`, `Dial.ExamplePasswords`, `Dial.SecondTestPassword` |
| 2025/4/main.rs:22 | the column count is `(input.len() - rows) / rows` on the untrimmed input, which rounds down and so is right only when trimming removed between 1 and `rows` characters | `@@\n@@` (no final newline) fails the shape check and panics | the column count of the trimmed text: the 2×2 grid | medium (the test input ends with one newline); not executed | `Rolls.ParseGridAsWritten`, `Rolls.AsWrittenRejectsUnterminated`, `Rolls.AsWrittenCounterexample` | `Rolls.ParseGrid`, `Rolls.ParseRender`, `Rolls.ParseInput` |
| 2025/6/main.rs:86-91 | a problem ends at the first column whose digits spell 0, so a column of only `0` digits ends it too | `10 3\n20 4\n*  +` gives 12 + 0 = 12 when worked by hand (only the operands are proved): the digit rows `10` and `20` give the operands [12] | a problem ends at a column with no digit, as the comment at 2025/6/main.rs:87-90 describes: 34, operands [12, 0] | medium (the puzzle's inputs may never have such a column); not executed | `Worksheet.OperandsAsWritten`, `Worksheet.AsWrittenEndsAtZeros`, `Worksheet.AsWrittenZerosExample` | `Worksheet.Operands`, `Worksheet.ProblemIterator.Next`, `WorksheetExamples.Part2Example` |
| 2025/9/main.rs:50-101 | the largest rectangle is taken only between the tiles nearest the four corners of the bounding box | tiles (0,0), (0,2), (1,1) give 3 | the largest rectangle over all pairs of tiles: 4, from (0,0) and (1,1) | high; not executed | `Tiles.MaxRectangleArea`, `Tiles.CornerPicksMissLargest` | `Tiles.LargestRectangleArea`, `Tiles.CornerAreaAtMostLargest` |
