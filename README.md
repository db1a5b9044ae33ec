# Advent of Code 2022, days 1 to 10, in Dafny

This project models the ten puzzle solvers of the Rust repository
TobiasRp/aoc2022 (`src/day1/main.rs` to `src/day10/main.rs`) and proves
what each one computes. There is one module per day, plus three shared
modules. `Wrappers` holds `Option` and `Result`. `Text` models the pieces of
Rust's string handling the solvers use: `split` on a character (empty pieces
kept), `trim` (which strips the Unicode white space of `char::is_whitespace`),
`contains`, and `parse` of unsigned and signed numbers (an optional leading
'+', and '-' for signed ones).
`Seqs` holds sequence reversal and sums.

- `Calories` (day 1): groups inventory lines at blank lines into totals.
  Part one is the largest total. Part two is the sum of the last three
  totals in list order, as the code does it; the list is not sorted.
- `RockPaperScissors` (day 2): the score tables of the strategy guide, read
  as two shapes (part one) or as a shape and a wanted result (part two).
- `Rucksack` (day 3): item priorities, the item common to both halves of a
  rucksack, and the item common to a group of three.
- `SectionRanges` (day 4): range containment and overlap, range parsing,
  and the counting loop.
- `CrateStacks` (day 5): the stack drawing parsed into a vector of stacks,
  moves of one crate at a time (part one) or of a block (part two), and the
  top crates. The vector of stacks is an `array<seq<Crate>>`, updated in
  place.
- `PacketMarker` (day 6): the end of the first window of pairwise different
  characters.
- `DirectorySizes` (day 7): the replay of a `cd`/`ls` transcript into a
  table from path to listing, and the repeated-pass, write-once computation
  of every directory's total size. Part one sums the sizes below 100000;
  part two finds the smallest directory whose deletion frees enough space.
- `TreeGrid` (day 8): the tree grid, the four running-maximum scans of part
  one and the viewing distances of part two.
- `Rope` (day 9): the knots of a rope as an array updated in place, the head
  step, the knot-follows-knot rule and the set of positions the last knot
  visits.
- `CpuTrace` (day 10): the register trace of a `noop`/`addx` program, the
  signal strengths and the lit pixels of the screen.

The line readers are paired with a printer and proved to read back what the
printer writes: the inventory layout of day 1, the guide line of day 2, the
range and the line of ranges of day 4, the move line of day 5, the listing
and `cd` lines of day 7, the move line of day 9, the instruction line of
day 10, and the number parsers of `Text`. The two readers of whole drawings,
`parse_stacks` (day 5) and `Map::build` (day 8), have no printer; lemmas
characterise their result instead (`CrateStacks.ColumnIsTopDownReversed`,
`TreeGrid.BuildRectangular`). Each loop of the source is a method proved against a reference
function. The properties the code promises are lemmas about those functions.

Day 7's `solve_pt1` (`src/day7/main.rs:167-169`) keeps only the sizes
strictly below 100000, and the model follows the code.

## Model

| member | source | states |
|---|---|---|
| Calories.ReadCalories | src/day1/main.rs:4-22 | the totals are those of the line-by-line reader `TallyOf`: a line that is blank once trimmed of Unicode white space emits the running count and resets it to 0, any other line adds the number `u32::from_str` reads from it, a leading '+' allowed |
| Calories.ReadPaddedLines | src/day1/main.rs:11-18 | "+5", then "7" padded with U+00A0 and U+000C, then a blank line give the single total 12 |
| Calories.TotalsAreBlankLines | src/day1/main.rs:9-21 | there is exactly one total per blank line, so a last run with no blank line after it is never emitted |
| Calories.CountNumbers | src/day1/main.rs:16-18 | number lines after any prefix emit nothing and add their values to the running count |
| Calories.ReadLayout | src/day1/main.rs:9-21 | a file of inventories, each closed by a blank line, followed by unclosed numbers, reads back as exactly the inventories' sums, with the unclosed sum left in the running count |
| Calories.MaxCalories | src/day1/main.rs:24-26 | the result is at least every total and is one of them, or 0 when there are no totals |
| Calories.SumLastThree | src/day1/main.rs:28-30 | walking the list backwards and taking three gives the sum of the last `min(3, n)` totals in list order, with no sorting |
| Calories.SolveExample | src/day1/main.rs:46-52 | the totals 6000, 4000, 11000, 24000, 10000 give 24000 and 45000 |
| Calories.SolveEmpty | src/day1/main.rs:60-64 | no totals give 0 for both parts |
| RockPaperScissors.Score | src/day2/main.rs:23-29 | a shape is worth its index plus one, between 1 and 3 |
| RockPaperScissors.ScoreRound | src/day2/main.rs:31-44 | the table lookup equals my shape's value plus 3 for equal shapes, 6 when my shape beats the elf's by the rules of the game (`Beats`) and 0 otherwise; a round scores between 1 and 9 |
| RockPaperScissors.ScoreRoundExamples | src/day2/main.rs:137-153 | the nine rounds of the test score 4, 5, 6 for draws, 7, 8, 9 for wins and 1, 2, 3 for losses |
| RockPaperScissors.NewShape | src/day2/main.rs:46-53 | a shape is returned exactly for the letters A, B, C, X, Y, Z, and the letter is that shape's letter in one of the two columns |
| RockPaperScissors.ExpectedResultOf | src/day2/main.rs:73-80 | a result is returned exactly for X, Y, Z, and the letter is that result's letter |
| RockPaperScissors.LettersRoundTrip | src/day2/main.rs:46-53 | reading the letter written for a shape or a result gives that shape or result back |
| RockPaperScissors.DetermineMyShape | src/day2/main.rs:82-93 | the table's shape makes the round score exactly the wanted result's points (0, 3 or 6) on top of the shape's value |
| RockPaperScissors.DetermineMyShapeUnique | src/day2/main.rs:82-93 | no other shape reaches that result against the elf's shape |
| RockPaperScissors.DetermineMyShapeExamples | src/day2/main.rs:155-171 | the nine cases of the test |
| RockPaperScissors.ParseFormatLine | src/day2/main.rs:55-65 | `parse_chars` (`ParseChars`) takes the first and third characters of a guide line, which are its two letters |
| RockPaperScissors.ScorePart1 | src/day2/main.rs:95-100 | a line read as two shapes scores between 1 and 9 |
| RockPaperScissors.ScorePart2 | src/day2/main.rs:102-109 | a line read as shape and result scores the chosen shape's value plus the wanted result's points |
| RockPaperScissors.Solve | src/day2/main.rs:111-123 | the running total is the sum of every line's score, between one and nine points per line |
| Rucksack.ItemPriority | src/day3/main.rs:5-15 | letters get priorities 1 to 52, lower-case exactly the ones up to 26 |
| Rucksack.PriorityBijection | src/day3/main.rs:5-15 | the priorities are a one-to-one map between the 52 letters and 1..52 |
| Rucksack.PriorityExamples | src/day3/main.rs:99-105 | 'b', 't', 'B', 'L' have priorities 2, 20, 28, 38 |
| Rucksack.FirstCommonIsFirst | src/day3/main.rs:17-30 | the reference item is in both halves and no earlier item of the right half occurs in the left |
| Rucksack.FindDuplicated | src/day3/main.rs:17-30 | the set-and-scan loop returns the reference item: the first item of `right` that is also in `left` |
| Rucksack.FirstThreewayCommonIsFirst | src/day3/main.rs:49-68 | the reference item is in all three and no earlier item of `right` is in both other lists |
| Rucksack.FindThreewayDuplicated | src/day3/main.rs:49-68 | the two sets and the scan return the reference item: the first item of `right` found in `left` and `mid` |
| Rucksack.RucksackPriority | src/day3/main.rs:38-43 | an even-length line split into halves scores its common item's priority, between 1 and 52 |
| Rucksack.SolvePt1 | src/day3/main.rs:32-47 | the total is the sum of the line scores, between 1 and 52 per line |
| Rucksack.GroupsAreTriples | src/day3/main.rs:75 | windows of three taken every third one are the consecutive triples from index 0, and one or two trailing lines are dropped |
| Rucksack.GroupPriority | src/day3/main.rs:76-82 | a group of three lines scores its item common to all three, between 1 and 52 |
| Rucksack.SolvePt2 | src/day3/main.rs:70-85 | the total is the sum of the group scores, between 1 and 52 per complete group |
| Rucksack.FindDuplicatedExample | src/day3/main.rs:107-126 | the test lists give 't' for both searches |
| SectionRanges.ContainsReflexive | src/day4/main.rs:9-11 | every range contains itself, and two ranges contain each other exactly when they are equal |
| SectionRanges.ContainsMeansSubset | src/day4/main.rs:9-11 | for a non-empty inner range, `Range::contains` (`Range.Contains`, by bounds) holds exactly when every section of the inner range is in the outer one |
| SectionRanges.IsContainedMeansSubset | src/day4/main.rs:25-27 | for non-empty ranges, `is_contained` (`IsContained`) holds exactly when the sections of one range all lie in the other |
| SectionRanges.HasOverlapMeansShared | src/day4/main.rs:29-32 | `has_overlap` (`HasOverlap`) holds for two non-empty ranges exactly when some section lies in both |
| SectionRanges.DecisionsSymmetric | src/day4/main.rs:25-32 | neither decision depends on the order of the two ranges |
| SectionRanges.ContainedOverlaps | src/day4/main.rs:25-32 | for non-empty ranges, containment implies overlap |
| SectionRanges.DecisionExamples | src/day4/main.rs:78-94 | the test ranges: 2-4 and 2-8 nest, 2-4 and 5-8 do not; 2-4 and 3-8 overlap, 2-4 and 5-8 do not |
| SectionRanges.RangeBuild | src/day4/main.rs:13-22 | the error "invalid range" comes exactly when the text has no '-' |
| SectionRanges.BuildFormatRange | src/day4/main.rs:13-22 | building the written form "a-b" of a range gives the range back |
| SectionRanges.Ranges | src/day4/main.rs:34-42 | one range per comma-separated piece |
| SectionRanges.ParseLine | src/day4/main.rs:34-42 | the loop builds the range of every piece, in order |
| SectionRanges.ParseFormatLine | src/day4/main.rs:34-42 | parsing a written line of ranges gives the ranges back, in order |
| SectionRanges.ParseLineExample | src/day4/main.rs:96-109 | "2-4,12-42" parses into the ranges 2-4 and 12-42 |
| SectionRanges.Count | src/day4/main.rs:44-64 | at most one count per line |
| SectionRanges.Solve | src/day4/main.rs:44-64 | the loop counts the lines whose two ranges the decision accepts |
| SectionRanges.ContainedCountAtMostOverlapCount | src/day4/main.rs:66-71 | with non-empty ranges, part one's count never exceeds part two's |
| CrateStacks.CountNumbers | src/day5/main.rs:14-19 | the count of tokens that parse as numbers never exceeds the number of tokens |
| CrateStacks.ParseNumStacksJoin | src/day5/main.rs:14-19 | `parse_num_stacks` (`ParseNumStacks`) on a number line of space-free tokens joined by single spaces counts its numeric tokens; empty tokens between repeated spaces are not counted |
| CrateStacks.ParseNumStacksExample | src/day5/main.rs:162-166 | the test's number line " 1 21 42    5  60 " has five stacks |
| CrateStacks.ThreeStacksExample | src/day5/main.rs:170-173 | the drawing test's number line " 1   2   3 " has three stacks |
| CrateStacks.Drawn | src/day5/main.rs:36-42 | a line draws at most one crate on a given stack |
| CrateStacks.TopDownSnoc | src/day5/main.rs:33-44 | reading one more line adds that line's crate below the crates read so far |
| CrateStacks.ColumnIsTopDownReversed | src/day5/main.rs:33-44 | `Column`, the stack that inserting every line's crate at the front leaves, holds the drawn crates bottom first, the reverse of the drawing's top-down order |
| CrateStacks.PutUnderneath | src/day5/main.rs:34-43 | every stack gets the crate the line draws at its column (if any) in front of its old crates, and no other change |
| CrateStacks.ParseStacks | src/day5/main.rs:21-47 | a fresh vector with one stack per number on the last line, each holding the crates drawn in its column, bottom crate first |
| CrateStacks.Drawing | src/day5/main.rs:21-47 | the parsed stacks, as values: as many as the last line counts, each the reversed top-down column of the drawing |
| CrateStacks.DrawingExample | src/day5/main.rs:168-177 | the test drawing has three stacks, Z N D, M C and P, of lengths 3, 2 and 1 |
| CrateStacks.SplitMoveLine | src/day5/main.rs:63-70 | a written move line splits on spaces into its six words |
| CrateStacks.BuildFormatMove | src/day5/main.rs:63-80 | `Move::build` (`MoveBuild`) on the written line "move N from S to D" gives the move back, with the one-based stack numbers made zero-based |
| CrateStacks.MoveBuildExample | src/day5/main.rs:63-80 | "move 3 from 1 to 2" builds the move of 3 crates from stack 0 to stack 1 |
| CrateStacks.Popped | src/day5/main.rs:82-89 | taking crates off one stack keeps the number of stacks |
| CrateStacks.TakeReversed | src/day5/main.rs:82-89 | moving crates one at a time keeps the number of stacks |
| CrateStacks.TakeBlock | src/day5/main.rs:91-103 | moving a block of crates keeps the number of stacks |
| CrateStacks.PopPushSame | src/day5/main.rs:82-89 | popping a crate and pushing it back onto the same stack changes nothing |
| CrateStacks.TakeReversedStep | src/day5/main.rs:82-89 | moving k+1 crates one at a time is moving k and then popping and pushing one more: the top k+1 crates land reversed |
| CrateStacks.ApplyPt1 | src/day5/main.rs:82-89 | after `apply_pt1` the stacks are the old ones with the top min(num, height) crates of the source moved onto the target in reversed order; an empty source ends the moving early |
| CrateStacks.PoppedStep | src/day5/main.rs:93-98 | each further pop takes the next crate down off the source |
| CrateStacks.BufferedIsReversed | src/day5/main.rs:92-98 | the crates popped into the buffer are the taken top crates, topmost first |
| CrateStacks.PopIntoBuffer | src/day5/main.rs:92-98 | after the first loop of `apply_pt2` the source has lost its top min(num, height) crates and the buffer holds them topmost first; a move of zero crates touches nothing |
| CrateStacks.PushReversed | src/day5/main.rs:100-102 | pushing the buffer back to front appends it reversed to the target and changes no other stack |
| CrateStacks.ApplyPt2 | src/day5/main.rs:91-103 | after `apply_pt2` the taken crates sit on the target in their original order |
| CrateStacks.ReverseReverse | src/day5/main.rs:91-103 | reversing twice (into the buffer and back out of it) gives the order back |
| CrateStacks.Apply | src/day5/main.rs:105-114 | `Move::apply` has part one's effect for a part-one move and part two's for a part-two move |
| CrateStacks.AllCratesUpdate | src/day5/main.rs:82-103 | replacing one stack swaps its crates for the new ones in the collection of all crates |
| CrateStacks.TakeAndPut | src/day5/main.rs:82-103 | taking crates off a stack and putting the same crates, in any order, on a stack keeps every crate |
| CrateStacks.MovePreserves | src/day5/main.rs:82-114 | a move of either kind keeps the number of stacks and the collection of crates, and changes no stack other than its source and target |
| CrateStacks.MovePt1Preserves | src/day5/main.rs:82-89 | part one's move, `MovePt1`, keeps every crate and touches only the source and target |
| CrateStacks.MovePt2Preserves | src/day5/main.rs:91-103 | part two's move, `MovePt2`, keeps every crate and touches only the source and target |
| CrateStacks.MoveWithinStack | src/day5/main.rs:82-103 | a move from a stack onto itself leaves the stacks as they were, for both kinds |
| CrateStacks.ExampleStepsPt1 | src/day5/main.rs:189-199 | the three part-one moves of the test data, one by one, on the stacks A B and X |
| CrateStacks.ExampleStepsPt2 | src/day5/main.rs:201-212 | the three part-two moves of the test data, one by one |
| CrateStacks.ApplyMovesExample | src/day5/main.rs:189-199 | the test moves in part one leave the stacks A and X B |
| CrateStacks.ApplyMovesExamplePt2 | src/day5/main.rs:201-212 | the test moves in part two leave the stacks X and A B |
| CrateStacks.ApplyAllPreserves | src/day5/main.rs:117-122 | any run of moves keeps the number of stacks and every crate |
| CrateStacks.Moves | src/day5/main.rs:117-122 | there is one move per move line |
| CrateStacks.ApplyMoves | src/day5/main.rs:117-122 | the stacks end as the moves of the lines applied in order to the old stacks |
| CrateStacks.ApplyAllPrefix | src/day5/main.rs:117-122 | a run of moves that applies in full applies on each of its prefixes, so every step of the loop is defined |
| CrateStacks.TopCrates | src/day5/main.rs:124-130 | there is at most one letter per stack |
| CrateStacks.TopCratesConcat | src/day5/main.rs:124-130 | the top crates of two runs of stacks are the first run's followed by the second's |
| CrateStacks.TopCratesLength | src/day5/main.rs:124-130 | there is exactly one letter per non-empty stack |
| CrateStacks.TopCratesAllNonEmpty | src/day5/main.rs:124-130 | when no stack is empty, letter i is the name of stack i's top crate |
| CrateStacks.TopCratesSkipsEmpty | src/day5/main.rs:127 | an empty stack contributes no letter |
| CrateStacks.Solve | src/day5/main.rs:139-148 | the answer is the top crates of the parsed drawing after all the moves, with at most one letter per stack |
| PacketMarker.Distinct | src/day6/main.rs:4-14 | the one-character-at-a-time check holds exactly when no character occurs twice |
| PacketMarker.IsStartOfPacket | src/day6/main.rs:4-14 | the window is accepted exactly when no character occurs twice in it, failing at the first repeat |
| PacketMarker.MarkerFromIsFirst | src/day6/main.rs:16-23 | scanning the windows in order from a point before which none qualified gives the end of the first qualifying window, or the stream length |
| PacketMarker.MarkerIsAnswer | src/day6/main.rs:16-23 | the scan's result is the end of the first window without a repeat, or the stream length when no window qualifies, and no other number is |
| PacketMarker.MarkerBounds | src/day6/main.rs:16-23 | the answer never exceeds the stream length and, when a whole window fits, is at least the window size |
| PacketMarker.SolveDay6 | src/day6/main.rs:16-23 | `solve_day6` returns the end of the first window of distinct characters, or the stream length when there is none |
| PacketMarker.RepeatInWindow | src/day6/main.rs:4-14 | a window holding the same character twice is not a marker |
| PacketMarker.PacketExample | src/day6/main.rs:42-43 | the first test stream finds its packet marker after 7 characters |
| PacketMarker.SecondPacketExample | src/day6/main.rs:46-47 | the second test stream finds its packet marker after 5 characters |
| PacketMarker.MessageExample | src/day6/main.rs:42-44 | the first test stream finds its message marker, a window of 14, after 19 characters |
| DirectorySizes.NodeBuild | src/day7/main.rs:11-23 | a listing line is a subdirectory exactly when its first token is "dir", and a file otherwise |
| DirectorySizes.NodeBuildFormat | src/day7/main.rs:11-23 | reading back a printed listing line, "SIZE NAME" or "dir NAME", gives the same file size or subdirectory name |
| DirectorySizes.CdBuild | src/day7/main.rs:34-45 | the target is up exactly when the line contains "..", the root exactly when it contains "/" but not "..", and the named directory otherwise |
| DirectorySizes.CdBuildFormat | src/day7/main.rs:34-45 | reading back a written `cd` line gives its target again, for names without spaces, "/" or ".." |
| DirectorySizes.CdBuildExamples | src/day7/main.rs:226-229 | "cd .." goes up and "cd /" goes to the root |
| DirectorySizes.BuildPath | src/day7/main.rs:75-84 | the path is every stack entry in order, each entry other than "/" followed by "/" |
| DirectorySizes.PathExamples | src/day7/main.rs:75-84 | ["/"] gives "/" and ["/", "a", "b"] gives "/a/b/" |
| DirectorySizes.RootedPathIsJoin | src/day7/main.rs:75-84 | below the root, the path `build_path` builds (`PathOf`) is the names joined by "/", with a "/" at each end |
| DirectorySizes.PathSnoc | src/day7/main.rs:77-82 | pushing a name other than "/" adds that name and a "/" to the path |
| DirectorySizes.RootedPathInjective | src/day7/main.rs:75-84 | two stacks below the root whose names contain no "/" have the same path only when they are equal, so different directories are keyed apart |
| DirectorySizes.SplitRooted | src/day7/main.rs:75-84 | splitting such a path on "/" gives back the names, between an empty piece at each end |
| DirectorySizes.CollectDirStructure | src/day7/main.rs:127-149 | the table is the replay of the commands from the stack ["/"]: "cd /" cuts the stack to its first entry, "cd .." pops, "cd NAME" pushes, and `ls` files its listing under the current path |
| DirectorySizes.LsAtPrefix | src/day7/main.rs:131-147 | a command's path depends only on the commands before it |
| DirectorySizes.ReplayLast | src/day7/main.rs:142-145 | the last command, when it is an `ls` at a path, sets that path's listing; otherwise that path's entry is as before |
| DirectorySizes.LastLsIndex | src/day7/main.rs:142-145 | a path in the table was listed by an `ls`, and it holds the listing of the last `ls` run there |
| DirectorySizes.LastLsExtend | src/day7/main.rs:131-147 | a command that is not an `ls` at a path leaves the last `ls` at that path the last one |
| DirectorySizes.LsMakesKey | src/day7/main.rs:142-145 | a path where an `ls` ran is in the table |
| DirectorySizes.KeysGrow | src/day7/main.rs:131-147 | no command removes a path from the table |
| DirectorySizes.LastLsKey | src/day7/main.rs:142-145 | a final `ls` puts its path into the table |
| DirectorySizes.KeepsKey | src/day7/main.rs:131-147 | one more command keeps every path already in the table |
| DirectorySizes.LsKeys | src/day7/main.rs:127-149 | a path is in the table exactly when an `ls` ran there |
| DirectorySizes.LsLastWins | src/day7/main.rs:142-145 | when a directory is listed twice, the later listing replaces the earlier one |
| DirectorySizes.ComputeDirSize | src/day7/main.rs:86-109 | `None` exactly when some subdirectory's path "parent + name + /" has no size yet; otherwise the files' sizes plus the subdirectories' table sizes |
| DirectorySizes.ListingIsTreeSize | src/day7/main.rs:86-109 | when the table's sizes are total sizes, a listing's size is the directory's total size |
| DirectorySizes.SettlePass | src/day7/main.rs:115-122 | one pass in any key order writes only missing entries, each the directory's total size, and settles at least one directory while any is missing |
| DirectorySizes.ComputeDirSizes | src/day7/main.rs:111-125 | when every subdirectory of a listed directory is itself listed, the loop ends with a size for exactly the listed paths, each the total of its files and subdirectories |
| DirectorySizes.SizesSumChildren | src/day7/main.rs:86-125 | in the finished table every directory's size is its files plus its subdirectories' sizes |
| DirectorySizes.ChildNoLarger | src/day7/main.rs:86-109 | a directory is at least as large as each of its subdirectories |
| DirectorySizes.TreeSizeExample | src/day7/main.rs:111-125 | a root holding a 100-byte file and directory "a" with a 50-byte file has size 150, and "a" has 50 |
| DirectorySizes.SumSmallRemove | src/day7/main.rs:167-169 | the sum of the sizes below 100000 does not depend on the order the table is walked |
| DirectorySizes.SumSmallBound | src/day7/main.rs:167-169 | each path adds at most 99999 to part one's sum |
| DirectorySizes.SolvePt1 | src/day7/main.rs:167-169 | the sum of the sizes strictly below 100000, each directory counted once |
| DirectorySizes.SolvePt2 | src/day7/main.rs:171-182 | the result is a size in the table, deleting it leaves at least 30000000 of 70000000 free, and it is the smallest such size |
| TreeGrid.Map.Idx | src/day8/main.rs:32-34 | the place `y * width + x` of a cell on the grid lies inside the vector |
| TreeGrid.IdxFacts | src/day8/main.rs:32-34 | the place of column x of row y gives back row y and column x |
| TreeGrid.Coord | src/day8/main.rs:32-34 | every place of the vector is the place of exactly the cell its row and column name |
| TreeGrid.IdxInjective | src/day8/main.rs:32-34 | different cells are stored at different places |
| TreeGrid.GetIsDigit | src/day8/main.rs:32-34 | on the grid built from lines of equal length, `Map::get` (`Map.Get`) at column x of row y is the value of the digit at column x of line y |
| TreeGrid.InsideIffStored | src/day8/main.rs:36-38 | `Map::inside` (`Map.Inside`) holds exactly for the points that name a stored tree |
| TreeGrid.MaxLeftIsMax | src/day8/main.rs:42-50 | the running row maximum before a cell is the tallest tree left of it, or 0 at the left edge |
| TreeGrid.MaxRightIsMax | src/day8/main.rs:52-60 | the running maximum of the reversed row scan is the tallest tree right of the cell, or 0 at the right edge |
| TreeGrid.MaxTopIsMax | src/day8/main.rs:62-70 | the running column maximum is the tallest tree above the cell, or 0 in the top row |
| TreeGrid.MaxBottomIsMax | src/day8/main.rs:72-80 | the running maximum of the reversed column scan is the tallest tree below the cell, or 0 in the bottom row |
| TreeGrid.VisibleIffScans | src/day8/main.rs:82-97 | a tree is visible from outside exactly when it stands on the edge or is taller than the tallest tree before it in one of the four scans |
| TreeGrid.AllPlaces | src/day8/main.rs:42-80 | the scans visit every place of their vectors |
| TreeGrid.ScanLeftToRight | src/day8/main.rs:42-50 | a fresh vector holding, for every cell, the tallest tree left of it in its row |
| TreeGrid.ScanRightToLeft | src/day8/main.rs:52-60 | a fresh vector holding, for every cell, the tallest tree right of it in its row |
| TreeGrid.ScanTopToBottom | src/day8/main.rs:62-70 | a fresh vector holding, for every cell, the tallest tree above it in its column |
| TreeGrid.ScanBottomToTop | src/day8/main.rs:72-80 | a fresh vector holding, for every cell, the tallest tree below it in its column |
| TreeGrid.VisibleInRow | src/day8/main.rs:82-97 | a row prefix has no more visible trees than cells |
| TreeGrid.InnerInRow | src/day8/main.rs:87-96 | the inner trees counted in a row are fewer than the columns scanned |
| TreeGrid.EdgeRowVisible | src/day8/main.rs:82-83 | every tree of the top and bottom rows is visible |
| TreeGrid.InnerRowVisible | src/day8/main.rs:82-97 | in an inner row, the visible trees are the first column plus the inner trees that beat a scan |
| TreeGrid.FirstColumnVisible | src/day8/main.rs:82-83 | the first tree of every row is visible |
| TreeGrid.InnerCellCounts | src/day8/main.rs:86-96 | an inner cell counts as visible exactly when it beats a scan |
| TreeGrid.RowsVisible | src/day8/main.rs:82-97 | the first k rows hold the full top row, two edge trees per further row, and the inner trees that beat a scan |
| TreeGrid.RowsVisibleStep | src/day8/main.rs:82-97 | one more inner row adds its two edge trees and its inner trees that beat a scan |
| TreeGrid.LastColumnVisible | src/day8/main.rs:82-83 | the last tree of every row is visible |
| TreeGrid.CountVisibleSplit | src/day8/main.rs:82-97 | the visible trees are the `2 * (width - 2) + 2 * height` edge trees plus the inner trees that beat a scan |
| TreeGrid.InnerInRowsStep | src/day8/main.rs:86-97 | one more row adds its inner trees that beat a scan |
| TreeGrid.CountInnerRow | src/day8/main.rs:87-96 | the inner loop adds the inner trees of row y that are taller than the tallest tree before them in some scan |
| TreeGrid.SolvePt1 | src/day8/main.rs:41-99 | with the scans storing and reading every cell at `y * width + x`, and a one-row grid counted as its `width` trees, the result is the number of trees visible from outside |
| TreeGrid.OneRowAsWrittenOvercounts | src/day8/main.rs:82-98 | on a grid one row high all `width` trees are visible, while the edge count as written, `2 * (width - 2) + 2 * height`, is `width - 2` more |
| TreeGrid.OneRowExample | src/day8/main.rs:82-98 | three trees in one row: 3 visible, 4 counted as written |
| TreeGrid.ViewWithinGrid | src/day8/main.rs:101-121 | the viewing distance never passes the edge, and is 0 only for a tree on the edge in that direction |
| TreeGrid.ViewPassesLowerTrees | src/day8/main.rs:107-120 | every tree seen stands on the grid, and every one before the last is lower than the viewing tree |
| TreeGrid.AheadShift | src/day8/main.rs:108-109 | k steps from a point are one step and then k - 1 more |
| TreeGrid.ViewStopsAtTallTree | src/day8/main.rs:111-119 | the view ends at the edge or at the first tree at least as tall |
| TreeGrid.Score | src/day8/main.rs:101-121 | `score` returns the viewing distance: the trees counted until the grid's edge or up to and including the first tree at least as tall |
| TreeGrid.ScenicScoreZero | src/day8/main.rs:123-129 | a tree scores 0 exactly when it stands on the edge |
| TreeGrid.ComputeScenicScore | src/day8/main.rs:123-129 | the product of the four viewing distances |
| TreeGrid.SolvePt2 | src/day8/main.rs:131-141 | the largest scenic score of any tree, reached by some tree; 0 for an empty grid |
| TreeGrid.RowHeightsAt | src/day8/main.rs:16-18 | each height is the value of its digit, one per character |
| TreeGrid.Build | src/day8/main.rs:11-30 | the trees are the digit values line after line, the width is the first line's length (1 without lines) and the height is the number of trees divided by the width |
| TreeGrid.PushDigits | src/day8/main.rs:16-18 | pushing a line appends its digit values in order |
| TreeGrid.BuildRectangular | src/day8/main.rs:11-30 | lines of equal length make a valid grid whose tree at column x of row y is the value of that line's digit |
| TreeGrid.HeightsSnoc | src/day8/main.rs:15-22 | one more line appends that line's heights |
| TreeGrid.BuildExample | src/day8/main.rs:159-165 | the test grid is 5 wide, 5 high and holds 25 trees |
| TreeGrid.ScenicScoreExample | src/day8/main.rs:168 | the tree at column 2 of row 3 of the test grid scores 8 |
| TreeGrid.ExampleViews | src/day8/main.rs:123-129 | that tree sees 2 trees up, 1 down, 2 left and 2 right |
| TreeGrid.VisibleExample | src/day8/main.rs:82-97 | the tree at column 1 of row 1 of the test grid is visible |
| TreeGrid.SeenFromTop | src/day8/main.rs:62-70 | a second-row tree taller than the tree above it is visible |
| TreeGrid.HiddenExample | src/day8/main.rs:82-97 | the tree at column 3 of row 1 of the test grid is hidden |
| TreeGrid.WrittenIdxBound | src/day8/main.rs:46 | with no more rows than columns, the place `y * height + x` the scans write stays inside the vector |
| TreeGrid.WrittenIdxPastEnd | src/day8/main.rs:75-76 | with more rows than columns, the place written for the bottom right cell lies at or past the end of the vector, so the write panics |
| TreeGrid.ScanCell | src/day8/main.rs:43-80 | write number k of each scan fills a cell of the grid: row by row for the row scans, column by column for the column scans, from the far end for the reversed ones |
| TreeGrid.ScanAsWritten | src/day8/main.rs:42-80 | each of the four vectors as written keeps the grid's size |
| TreeGrid.AsWrittenStep | src/day8/main.rs:42-80 | each write as written changes only the place `y * height + x`, and stores there the tallest tree before its cell in the scan's direction |
| TreeGrid.InnerAsWrittenInRow | src/day8/main.rs:87-96 | the inner trees of one row that the count as written adds, fewer than the columns scanned |
| TreeGrid.InnerAsWrittenInRows | src/day8/main.rs:86-97 | the inner trees of the rows scanned that the count as written adds, at most one per cell |
| TreeGrid.LeftToRightAsWrittenMisses | src/day8/main.rs:42-92 | on a 4 by 3 grid the `left_to_right` place read for column 1 of row 1 holds that tree's own height, so the left test fails for a tree that is visible from the left |
| TreeGrid.CountedAsWrittenFourByThree | src/day8/main.rs:42-92 | on any 4 by 3 grid the count as written tests the tree at column 1 of row 1 against the four values stored for column 2 of row 1, and the tree at column 2 against those of column 0 of row 2 and column 3 of row 1 |
| TreeGrid.SolvePt1AsWrittenFourByThree | src/day8/main.rs:82-98 | on any 4 by 3 grid the answer as written is 10 plus the inner trees the count as written adds |
| TreeGrid.WideExampleReads | src/day8/main.rs:86-97 | on the grid 9999/0599/9999 the count as written misses the tree at column 1 of row 1 and adds the one at column 2 |
| TreeGrid.WideExampleVisible | src/day8/main.rs:82-98 | all 12 trees of that grid are visible from outside |
| TreeGrid.WideExampleAsWritten | src/day8/main.rs:41-99 | on that grid `solve_pt1` as written answers 11, while 12 trees are visible |
| TreeGrid.LastWritesLeftToRight | src/day8/main.rs:43-50 | on any 4 by 3 grid the last writes of `left_to_right` to places 5 and 6 come from column 2 of row 1 and column 0 of row 2 |
| TreeGrid.LastWritesRightToLeft | src/day8/main.rs:53-60 | the same for `right_to_left`: column 2 of row 1 and column 0 of row 2 |
| TreeGrid.LastWritesTopToBottom | src/day8/main.rs:63-70 | for `top_to_bottom`, going column by column: column 2 of row 1 and column 3 of row 1 |
| TreeGrid.LastWritesBottomToTop | src/day8/main.rs:73-80 | the same for `bottom_to_top` |
| Rope.DirectionLetters | src/day9/main.rs:30-36 | U, D, L and R read as their own directions, and every other letter reads as up |
| Rope.MoveBuild | src/day9/main.rs:25-40 | the direction is the one named by the line's first letter; `Buildable` demands a first word one byte long in UTF-8, as the `assert_eq!` on its `len()` does |
| Rope.MultiByteLetterRejected | src/day9/main.rs:26-27 | the line "é 4", whose first word is one character but two bytes, fails the length check |
| Rope.SplitFirst | src/day9/main.rs:26-28 | the first word is a prefix of the line |
| Rope.BuildFormatMove | src/day9/main.rs:25-40 | building a move from its written line "D N" gives the move back, negative counts included |
| Rope.MoveBuildExamples | src/day9/main.rs:108-123 | "U 4" is four steps up and "D 12" twelve steps down |
| Rope.Stepped | src/day9/main.rs:42-49 | a head step changes exactly one coordinate by exactly 1: y up for Up, y down for Down, x down for Left, x up for Right |
| Rope.MoveHead | src/day9/main.rs:42-49 | `move_head` moves knot i one step in the move's direction and changes no other knot |
| Rope.Signum | src/day9/main.rs:56-61 | `signum` is -1, 0 or 1, never of the opposite sign to its argument, and 0 exactly for 0 |
| Rope.Follow | src/day9/main.rs:51-63 | a touching knot stays put; otherwise each coordinate moves by at most 1 toward the knot ahead, and the knot ends within one step of where it was |
| Rope.FollowCatchesUp | src/day9/main.rs:55-62 | from at most 2 away in each coordinate, the knot ends touching the knot ahead |
| Rope.FollowApproaches | src/day9/main.rs:55-62 | a knot that is not touching moves, and never onto the knot ahead |
| Rope.MoveTail | src/day9/main.rs:51-63 | `move_tail` moves knot i after knot i - 1 and changes no other knot |
| Rope.Pulled | src/day9/main.rs:82-85 | pulling the knots after the head keeps the number of knots and the head |
| Rope.RopeStep | src/day9/main.rs:81-85 | a rope step keeps the number of knots and steps the head |
| Rope.PulledInvariant | src/day9/main.rs:82-85 | while the knots are pulled in order, the pulled ones touch their predecessors and the rest are untouched |
| Rope.RopeStepKeepsConnected | src/day9/main.rs:80-86 | if every knot touches the one before it, it still does after a unit step |
| Rope.Steps | src/day9/main.rs:80-87 | unit steps keep the number of knots |
| Rope.Simulate | src/day9/main.rs:70-88 | the rope keeps its `num_knots` knots through all the moves |
| Rope.StepRope | src/day9/main.rs:81-85 | one unit step of the knots vector is the head step followed by every knot following the one before it, in order |
| Rope.MoveRope | src/day9/main.rs:80-87 | one move takes `num` unit steps (none for a count below one) and records the last knot's position after each |
| Rope.Solve | src/day9/main.rs:70-90 | the number of distinct positions the last knot visits, counting the origin |
| Rope.StepsVisit | src/day9/main.rs:80-87 | the visited set only grows, by at most one position per step, and holds the last knot after every step |
| Rope.StepsConnected | src/day9/main.rs:80-87 | every knot keeps touching its predecessor across unit steps |
| Rope.StepsMoveHead | src/day9/main.rs:80-81 | n unit steps move the head exactly n units in the direction |
| Rope.SimulateFacts | src/day9/main.rs:70-90 | after all moves the knots are connected, the origin and the last knot's position are visited, and the count lies between 1 and 1 + the total number of steps |
| Rope.VisitedGrows | src/day9/main.rs:79-88 | the positions visited after some of the moves stay visited after all of them |
| Rope.HeadTravels | src/day9/main.rs:79-81 | the last move takes the head exactly `num` units in its direction |
| Rope.SolveAtLeastOne | src/day9/main.rs:71-72 | the answer is at least 1 |
| Rope.PullTwo | src/day9/main.rs:82-85 | with two knots only the tail follows the head |
| Rope.TwoStepsRight | src/day9/main.rs:70-90 | two steps right with two knots leave the tail at the origin and then at (1, 0) |
| CpuTrace.OpBuild | src/day10/main.rs:10-19 | a line is an addx exactly when it contains "addx", and a no-op otherwise |
| CpuTrace.BuildFormatOp | src/day10/main.rs:10-19 | building an instruction from "noop" or "addx V" gives it back, negative V included |
| CpuTrace.OpBuildExamples | src/day10/main.rs:87-90 | "addx 42" adds 42 and "noop" is a no-op |
| CpuTrace.Trace | src/day10/main.rs:26-40 | the trace is never empty |
| CpuTrace.RunOps | src/day10/main.rs:26-40 | `run_ops` returns the trace: 1, then X once for a no-op and twice for an addx, X growing by v only after both entries |
| CpuTrace.TraceShape | src/day10/main.rs:26-40 | the trace starts with 1 and has 1 + #no-op + 2 * #addx entries |
| CpuTrace.XDuringAfterEnd | src/day10/main.rs:29-39 | after the last cycle X is the final register value |
| CpuTrace.TraceIsRegister | src/day10/main.rs:26-40 | trace entry c is the value of X during cycle c |
| CpuTrace.TraceExample | src/day10/main.rs:26-40 | noop, addx 3, addx -5 give the trace 1 1 1 1 4 4 and leave X at -1, a value the trace never holds |
| CpuTrace.TracePrefix | src/day10/main.rs:29-38 | the trace of the first instructions is a prefix of the whole trace |
| CpuTrace.SignalStrengthOfTrace | src/day10/main.rs:42-44 | `signal_strength` (`SignalStrength`) on a program's trace is the cycle number times X during that cycle |
| CpuTrace.SumStrengthsOfTrace | src/day10/main.rs:46-52 | on a program's trace, summing the signal strengths of sampled cycles sums each cycle times X during it |
| CpuTrace.TotalSignalStrengthOfProgram | src/day10/main.rs:46-52 | `total_signal_strength` (`TotalSignalStrength`) of a program's trace is `20 * X(20) + 60 * X(60) + 100 * X(100) + 140 * X(140) + 180 * X(180) + 220 * X(220)`, with X(c) the value during cycle c |
| CpuTrace.SumStrengthsConstant | src/day10/main.rs:46-52 | where X holds v at every sampled cycle, the total is v times the sum of the cycles |
| CpuTrace.NoAddXKeepsOne | src/day10/main.rs:26-40 | without addx X stays 1 |
| CpuTrace.NoOpsScore | src/day10/main.rs:46-52 | a program of at least 220 no-ops has a total signal strength of 720 |
| CpuTrace.SampleCyclesSum | src/day10/main.rs:47 | cycles 20, 60, 100, 140, 180 and 220 sum to 720 |
| CpuTrace.Screen | src/day10/main.rs:54-69 | six rows of forty characters, each '#' exactly when the pixel is lit and '.' otherwise |
| CpuTrace.PixelOfProgram | src/day10/main.rs:60-64 | on a program's trace, the pixel test of `draw` (`PixelLit`) at column x of row y holds exactly when X during cycle `40 * y + x + 1` is within 1 of x |
| CpuTrace.ScreenProgramCycles | src/day10/main.rs:58 | a program fits the screen exactly when it takes 240 cycles |
| Text.Split | src/day4/main.rs:37 | `split` on a character gives at least one piece, and no piece holds the separator |
| Text.JoinSplit | src/day4/main.rs:37 | joining the pieces of `split` with the separator gives the string back |
| Text.SplitJoin | src/day5/main.rs:15 | splitting pieces joined by a separator they do not hold gives the pieces back, empty ones included |
| Text.TrimEmpty | src/day1/main.rs:11-13 | a line is empty after `trim` exactly when all its characters are Unicode white space |
| Text.TrimStartDrops | src/day1/main.rs:11 | the start of `trim` drops exactly the leading white space and stops at the first other character |
| Text.TrimEndDrops | src/day1/main.rs:11 | the end of `trim` drops exactly the trailing white space and stops at the last other character |
| Text.ParseShowNat | src/day7/main.rs:20 | the digits of a number read back as that number |
| Text.ParseUnsignedShowNat | src/day1/main.rs:17 | `parse::<u32>` (`ParseUnsigned`) reads a printed number back, with or without a leading '+' |
| Text.ParseShowInt | src/day10/main.rs:14 | `parse::<i32>` (`ParseInt`) reads a printed signed number back |
| Text.Contains | src/day10/main.rs:11 | `contains` holds exactly when the pattern occurs at some position |
| Text.ContainsChar | src/day7/main.rs:34-45 | a one-character pattern is contained exactly when the character occurs |

## Left out

- File and console I/O: `fs::read_to_string`, `File::open` and `BufReader` in `read_calories`, the `read_lines` helpers (`aoc::read_lines` is not part of this model), every `main`, and the `println!` of `draw`. The solvers take lines or parsed values instead.
- Splitting a whole input text into lines (`str::lines`): every solver takes the lines as a sequence.
- Day 5 `split_file` (`src/day5/main.rs:132-137`) splits the file at its blank line. `CrateStacks.Solve` takes the drawing lines and the move lines separately.
- Day 7 `Op::build` and `process_directories` (`src/day7/main.rs:54-73`, `151-165`) cut the transcript at '$' into command blocks. The model starts from the parsed commands; `Node::build` and `CdDst::build`, which read the block's lines, are modelled.
- Day 9 `build_moves` and day 10 `parse_ops` only apply `Move::build` or `Op::build` to every line. The model states those builders per line.
- Machine integers: `u32`, `i32`, `usize` and `u8` are unbounded `int`/`nat` here, so overflow and wrap-around of sums, sizes, coordinates and signal strengths are not modelled. `str::parse` is modelled without its overflow error.
- `unwrap`, `expect`, `assert!` and index panics become preconditions (the `Buildable` predicates, `IsScreenTrace`, `requires` on indices). The panicking runs are not modelled.
- `HashSet` and `BTreeMap` are Dafny `set` and `map`. Their loops pick elements in any order, which covers the `BTreeMap` key order of day 7 among others.
- DirectorySizes.ComputeDirSizes: requires that every subdirectory of a listed directory is itself listed. Without that the source loops forever, and the model does not describe the non-terminating run.
- DirectorySizes.SolvePt2: requires the root's size to be at most 70000000. For larger totals the source's `usize` subtraction can underflow, and the model does not follow that.
- TreeGrid.SolvePt1: requires a grid at least 2 wide and at least 1 high. A grid 1 wide makes `width - 2` underflow, and a grid 0 high makes `height - 1` underflow, so the source panics on both. It models the corrected indexing of the scans and the corrected count of a one-row grid (see Findings).
- TreeGrid.SolvePt1 and TreeGrid.SolvePt2 require `Map.Valid`, which demands exactly `width * height` trees. `Map::build` also keeps the trailing cells of a last line shorter or longer than the first, and the solvers never read those cells; grids with such ragged lines are not modelled.
- TreeGrid.Score: only the four unit steps `compute_scenic_score` passes are modelled, not arbitrary step vectors.
- TreeGrid.Build: requires a non-empty first line when there are lines. With an empty first line the width is 0, and the division by it panics in the source.
- Rope.Solve: requires at least one knot. With no knots, the source panics on the first unit step.
- Tests that read `data/dayN/*` files: their data is not part of this model. The inline test vectors are stated as example lemmas.

## Findings

| source | as written | input that shows it | evidently intended | confidence | as-written member | corrected member |
|---|---|---|---|---|---|---|
| src/day8/main.rs:42-92 | the four scans of `solve_pt1` write the cell at column x of row y to place `y * height + x`, while the count reads place `y * width + x` | a grid 4 wide and 3 high with row 1 reading 0 5 9 9: in `left_to_right` the place read for column 1 of row 1 is last written by column 2 and holds 5, the tree's own height, so the left test fails although the only tree left of it has height 0; on the grid 9999/0599/9999 that tree is missed by all four scans and the code answers 11, while 12 trees are visible; on a grid taller than wide, the last write, at `(height - 1) * height + width - 1`, lies past the end of the vector, so the code panics with an index out of bounds | store and read every cell at `y * width + x`, as `Map::get` does | not executed | TreeGrid.WideExampleAsWritten | TreeGrid.SolvePt1 |
| src/day8/main.rs:82-98 | `solve_pt1` starts from `2 * (width - 2) + 2 * height` edge trees, which counts the `width - 2` inner trees of a grid one row high twice, once as the top row and once as the bottom row | a grid 3 wide and 1 high: all 3 trees are visible, and the code answers 4 | a grid one row high has `width` edge trees | not executed | TreeGrid.OneRowAsWrittenOvercounts | TreeGrid.SolvePt1 |
