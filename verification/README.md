# Advent of Code 2022, days 1 to 8, in Dafny

This is a model of a set of Ruby solutions to the first eight puzzles of
Advent of Code 2022. Each puzzle is a small pipeline: cut the puzzle input
into lines, read each line, then fold the readings into an answer. The model
writes every step of each pipeline as a pure Dafny function and proves what
the step promises.

The modules follow the Ruby files:

| module | Ruby file | what it covers |
|---|---|---|
| `Text` | shared | `each_line`, `lines(chomp: true)`, `strip`, `split`, `to_i`, `Integer` |
| `Sums` | shared | `sum`, `max`, `sort`, `last(3)`, and adding up results that may have failed |
| `CalorieGroups` | `day1/code.rb` | `slice_when`, group totals, `FindMax`, `FindTopThree` |
| `ElfLedger` | `day1/1.rb` | the running elf counter and its `Hash.new(0)` |
| `RockPaperScissors` | `day2/code.rb` | the scoring tables and the tournament |
| `Rucksacks` | `day3/code.rb` | compartments, the shared item, priorities |
| `SectionPairs` | `day4/code.rb` | section ranges and complete overlap |
| `CrateStacks` | `day5/code.rb` | the crate drawing, move orders, top crates |
| `Communication` | `day6/code.rb` | the start-of-packet and start-of-message marker |
| `DirectoryTree` | `day7/code.rb` | the `Tree` class as an arena of nodes |
| `DirectorySizes` | `day7/code.rb` | `SumTargetDirectorySizes` |
| `TerminalHistory` | `day7/code.rb` | `ParseTerminalHistory`, replaying the transcript |
| `DirectoryExample` | `day7/code.rb` | the transcript in the specs, replayed line by line into its tree |
| `TreeVisibility` | `day8/code.rb` | `ParseForest`, `CountVisibleTrees`, the answer the script prints |

Modelling conventions:

- **Failure.** Where Ruby raises, the model returns `None` or `Failure`. This covers `fetch` on a missing key, `Integer` on a non-number, a method called on `nil`, and a `match` that found nothing.
- **Lines.** `each_line` keeps each line's `"\n"`, and so does the model. `Text.EachLine` models the cutting itself.
- **The day 7 tree.** Ruby's `Tree` objects point at each other. The model stores them as a sequence of nodes. Node 0 is `/`, and a parent always comes before its children. Each `children` list is kept equal to "the nodes whose parent is this one, in creation order". Each cached `size` is kept equal to the sum of the file sizes below the node.
- **A missing directory.** A `cd` into a name that has no such child, or a `cd ..` at the root, leaves the day 7 cursor nil. Nothing fails yet: the next `add_*` or `cd ..` raises, and a `cd /` before it recovers. The model does the same (`TerminalHistory.NilCursorFails`, `TerminalHistory.NilCursorRecovers`).
- **Day 8 guards.** Day 8's early-out guards compare a coordinate with the wrong dimension. `TreeVisibility.Reading` therefore carries both the reading as written and the intended one (see "## Findings").

## Model

| member | source | states |
|---|---|---|
| Text.EachLine | day3/code.rb:37 | the lines join back to the input; each is non-empty; all but the last end in "\n"; no line has a "\n" before its end |
| Text.EachLineOfConcat | day3/code.rb:37 | cutting text made of "\n"-terminated lines gives those lines back (inverse of joining) |
| Text.Chomp | day1/code.rb:31 | the result is the line less exactly one trailing "\n" or "\r\n" when it ends in "\n", and the line itself otherwise |
| Text.ChompOf | day1/code.rb:31 | chomping `s + "\n"` or `s + "\r\n"` gives `s` back, and a line not ending in "\n" is left alone |
| Text.Strip | day1/1.rb:7 | the result neither starts nor ends with whitespace or NUL; it is empty iff the line is all whitespace; a line with no such character at either end is unchanged |
| Text.StripIsInfix | day1/1.rb:7 | the result is the stretch of the line left once only whitespace and NUL are cut from each end, and it neither starts nor ends with either |
| Text.StripLine | day7/code.rb:40 | stripping a line whose text has no whitespace at either end removes exactly its "\n" |
| Text.Fields | day2/code.rb:53 | every field is non-empty and contains no whitespace; an all-whitespace line has no fields |
| Text.FieldsOfLayout | day2/code.rb:53 | `split` of text made of fields separated by runs of whitespace (with any whitespace at either end) gives exactly those fields, in order |
| Text.SplitFirst | day7/code.rb:42 | `split(" ", 2)`: the first field is non-empty and contains no whitespace; the rest is a suffix of the line; there is no result exactly when the first field runs to the end of the line, or there is no field |
| Text.SplitFirstOfLayout | day7/code.rb:42 | `split(" ", 2)` of leading whitespace, a field, a run of whitespace and a remainder not starting with whitespace gives exactly that field and that remainder |
| Text.SplitFirstOfOneField | day7/code.rb:42 | a line of leading whitespace and one field has no second part |
| Text.SplitFirstOf | day7/code.rb:42 | `split(" ", 2)` of a field, a space and a remainder gives back exactly that field and that remainder |
| Text.SplitOn | day4/code.rb:23 | no piece contains the separator; the pieces joined by the separator are the string less its trailing separators; the last piece is non-empty; there are no pieces iff the string is all separators |
| Text.SplitOnOfJoin | day4/code.rb:23 | joining pieces without the separator (the last non-empty) and splitting again gives the pieces back |
| Text.SplitOnPair | day4/code.rb:27 | splitting `a + sep + b` gives back `[a, b]` when neither holds the separator |
| Text.ToI | day4/code.rb:28 | `to_i` of a string of digits is its decimal value |
| Text.ToIOfDigitsThen | day4/code.rb:28 | `to_i` reads the leading digits and ignores what follows |
| Text.ParseInteger | day1/1.rb:12 | `Integer` accepts exactly the decimal renderings of numbers (digits, no leading zero unless "0"), and reads each as the number it renders |
| Text.ShowNatRoundTrip | day1/1.rb:12 | writing a number in decimal and reading it back with `Integer` gives the number back |
| Text.ShowNatOfCanonical | day1/1.rb:12 | every accepted digit string is the decimal rendering of its value, the converse round trip |
| Sums.SumAllMeans | day2/code.rb:52 | adding up results fails exactly when one of them failed; otherwise it is the sum of the values, bounded by the bounds of each value |
| Sums.SumAllAppend | day3/code.rb:41 | the sum over two runs of results succeeds iff both do, and is then the sum of the two |
| Sums.Sort | day1/code.rb:43 | `sort` gives a sorted permutation of its input |
| Sums.SortIs | day1/code.rb:43 | any sorted permutation of the input is the one `sort` gives |
| Sums.TopThreeIsLargest | day1/code.rb:43 | `sort.last(3).sum` adds up three values of the input (all of them when there are fewer), none smaller than any value left out |
| Sums.Max | day1/code.rb:37 | `max` is an element no smaller than any other, and nil exactly for an empty list |
| CalorieGroups.LinesOfJoin | day1/code.rb:30-32 | text written as "\n"-terminated lines (none ending in "\r\n") reads back under `lines(chomp: true)` as the lines without their "\n" |
| CalorieGroups.SliceAfterBlank | day1/code.rb:24-28 | the groups join back to the lines; every group is non-empty; a blank line only ever ends a group; every group but the last ends with a blank line |
| CalorieGroups.SlicingIsUnique | day1/code.rb:24-28 | any grouping with those four properties is the one `slice_when` builds |
| CalorieGroups.SlicingAfterBlank | day1/code.rb:25-27 | a blank first line is a group by itself, ahead of the slicing of the rest |
| CalorieGroups.SlicingJoins | day1/code.rb:25-27 | any other first line joins the first group of the rest |
| CalorieGroups.GroupCount | day1/code.rb:24-28 | there is one group more than there are blank lines followed by another line (none for no lines) |
| CalorieGroups.TotalsAddUp | day1/code.rb:18-22 | the group totals add up to the sum over every line: grouping neither loses nor double-counts |
| CalorieGroups.CountCaloriesAccounts | day1/code.rb:12-32 | the totals of `CountCalories` add up to the sum of every number in the input, with one total per elf |
| CalorieGroups.FindMax | day1/code.rb:35-39 | the largest total (one of the totals, none bigger), nil exactly when there are none |
| CalorieGroups.FindTopThree | day1/code.rb:41-45 | the sum of three totals (all of them when fewer) that no total left out exceeds |
| CalorieGroups.TopThreeHoldsTheMost | day1/code.rb:35-45 | the top three together hold at least as much as the top elf |
| CalorieGroups.CountExample | day1/code.rb:54-82 | the example's fourteen lines give the totals 6000, 4000, 11000, 24000, 10000 |
| CalorieGroups.FindMaxExample | day1/code.rb:85-99 | the largest example total is 24000 |
| CalorieGroups.FindTopThreeExample | day1/code.rb:101-115 | the three largest example totals add up to 45000 |
| ElfLedger.ReadAllMeans | day1/1.rb:6-13 | reading fails iff some line cannot be read, and otherwise line i becomes entry i |
| ElfLedger.ReadGap | day1/1.rb:7-12 | a line is a gap iff it holds only whitespace and NUL; it is the amount n iff stripping it leaves n written in decimal |
| ElfLedger.ReadFails | day1/1.rb:7-12 | a line fails to read (`Integer` raises) iff something survives stripping and what survives is no number written in decimal |
| ElfLedger.CountMeans | day1/1.rb:2-17 | the hash is missing iff some line cannot be read; otherwise it is the loop's result over the entries read in order |
| ElfLedger.RunElf | day1/1.rb:3-10 | the elf number is 1 plus the number of blank lines, and no entry belongs to an elf beyond it |
| ElfLedger.RunShares | day1/1.rb:4-12 | each elf holds exactly the amounts read while it was the current elf |
| ElfLedger.RunAccounts | day1/1.rb:2-17 | the elves' entries add up to the sum of every amount read: no calorie lost or counted twice |
| ElfLedger.RunKeys | day1/1.rb:4-12 | an elf has an entry iff some amount was read while it was current; an elf with only blank lines has none |
| ElfLedger.FindMax | day1/1.rb:20-24 | the largest value of the hash (held by some elf, no value bigger), nil exactly for an empty hash |
| ElfLedger.ReadsNumber | day1/1.rb:7-12 | a line holding a number in decimal reads as that amount |
| ElfLedger.RunExample | day1/1.rb:31-60 | the example's entries give elves 1 to 5 the totals 6000, 4000, 11000, 24000, 10000 |
| ElfLedger.FindMaxExample | day1/1.rb:62-76 | the largest value of the example hash is 24000 |
| RockPaperScissors.OutcomeIsGame | day2/code.rb:10-24 | the outcome table holds exactly the pairs of known symbols, and says win, draw or lose exactly as rock-paper-scissors rules it |
| RockPaperScissors.ChoicePointsAreValues | day2/code.rb:4-8 | the choice table holds exactly X, Y, Z and gives each reply its shape's value 1, 2, 3 |
| RockPaperScissors.OneWinner | day2/code.rb:14-24 | equal shapes draw, and of two different shapes exactly one beats the other |
| RockPaperScissors.Score | day2/code.rb:35-47 | a round is scored iff both symbols are known, as outcome plus the reply's value, between 1 and 9 |
| RockPaperScissors.ScoreExamples | day2/code.rb:64-69 | A/Y scores 8, B/X 1, C/Z 6 |
| RockPaperScissors.Round | day2/code.rb:53-54 | a scored line scores between 1 and 9 |
| RockPaperScissors.RoundMeans | day2/code.rb:53-54 | a line is scored iff it has two fields that are known symbols, and it scores its first two fields |
| RockPaperScissors.PlayMeans | day2/code.rb:50-57 | the tournament fails iff some line does, and otherwise scores between 1 and 9 per line |
| RockPaperScissors.TournamentExample | day2/code.rb:72-81 | the example's three lines score 15 |
| Rucksacks.CompartmentSize | day3/code.rb:12-14 | half the length, rounded down |
| Rucksacks.CompartmentsPartition | day3/code.rb:8-18 | the two compartments together are exactly the contents |
| Rucksacks.CompartmentTwo | day3/code.rb:16-18 | the second compartment is as long as the first, or one longer |
| Rucksacks.Intersection | day3/code.rb:23 | `&` keeps the items of the first list that are in the second, each once, in the order of their first occurrence in the first list |
| Rucksacks.FirstShared | day3/code.rb:23 | the first item of the first list found in the second; none iff they share nothing |
| Rucksacks.IntersectionHead | day3/code.rb:23 | `(a & b).first` is the first item of `a` found in `b`, and nil iff there is none |
| Rucksacks.FindDuplicateIsFirstShared | day3/code.rb:21-25 | the duplicate item is the earliest item of compartment one that is also in compartment two, and nil iff there is none |
| Rucksacks.Priority | day3/code.rb:27-33 | `fetch` succeeds exactly for the 52 letters |
| Rucksacks.PriorityOfLetter | day3/code.rb:28 | a to z have priorities 1 to 26, A to Z have 27 to 52, and nothing else has one |
| Rucksacks.PriorityRangeAndInjective | day3/code.rb:28 | priorities lie in 1..52 and no two items share one |
| Rucksacks.SumPrioritiesMeans | day3/code.rb:35-43 | the sum fails iff some line has no duplicate letter; otherwise it lies between 1 and 52 per line |
| Rucksacks.SumPrioritiesAppend | day3/code.rb:35-43 | the sum over two runs of lines succeeds iff both do, and is then the sum of the two |
| Rucksacks.CompartmentsFixture | day3/code.rb:50-78 | "aBcdBe" splits into "aBc" and "dBe", whose duplicate is B |
| Rucksacks.PriorityFixture | day3/code.rb:80-91 | the listed letters have the listed priorities |
| Rucksacks.SumFixture | day3/code.rb:93-106 | the example's six rucksacks sum to 157 |
| SectionPairs.ParseSpanOfShow | day4/code.rb:26-29 | writing a range as "a-b" (with or without the "\n") and parsing it gives the range back |
| SectionPairs.ParseSpanOfOneField | day4/code.rb:26-29 | a range written as a bare number `a` parses as `a..0`, the missing second field reading as 0 |
| SectionPairs.ParsePair | day4/code.rb:12-24 | parsing fails exactly when the line has no comma-separated part |
| SectionPairs.CoversIsSubset | day4/code.rb:9 | `cover?` holds iff the inner range is not reversed and its sections all lie in the outer one |
| SectionPairs.CompleteOverlapIsContainment | day4/code.rb:8-10 | a pair overlaps completely iff one range is not reversed and lies inside the other |
| SectionPairs.CompleteOverlapSymmetric | day4/code.rb:8-10 | swapping the elves changes nothing; ranges sharing an end overlap completely |
| SectionPairs.ParseAll | day4/code.rb:34-35 | every line is parsed, in order, and the parse fails iff some line has no part |
| SectionPairs.CountOverlaps | day4/code.rb:32-38 | the count fails iff some line has no part, and is never more than the number of lines |
| SectionPairs.CountIsOverlapIndices | day4/code.rb:36 | the count is the number of positions whose pair overlaps completely |
| SectionPairs.ParsePairOfShow | day4/code.rb:12-29 | writing a pair as "a-b,c-d" and parsing it gives the pair back (with or without the "\n") |
| SectionPairs.ParseFixture | day4/code.rb:45-57 | "2-4,6-8" parses to 2..4 and 6..8 |
| SectionPairs.OverlapFixtures | day4/code.rb:60-75 | 2..6 and 3..4 overlap either way round; 2..6 and 4..8 do not |
| SectionPairs.CountFixture | day4/code.rb:78-91 | two of the six example pairs overlap completely |
| CrateStacks.Scan | day5/code.rb:8 | each item found is a crate letter or an empty slot, and there are no more items than characters |
| CrateStacks.ScanRenderRow | day5/code.rb:8 | scanning a drawn row of crates and empty slots gives back its slots: item i is what the cell at column 4i shows |
| CrateStacks.BlankMeansStripEmpty | day5/code.rb:6 | a line ends the drawing iff it is empty once stripped |
| CrateStacks.Drawing | day5/code.rb:5-6 | the drawing is the longest run of leading lines, none of them blank |
| CrateStacks.ParseStacksColumns | day5/code.rb:1-17 | stack k holds the crates of column k read bottom to top; a stack exists iff its column holds a crate; there is no stack 0 |
| CrateStacks.Reverse | day5/code.rb:10 | prepending each crate reverses the order it was read in |
| CrateStacks.FirstMove | day5/code.rb:21 | the leftmost position where a move order matches, or none iff it matches nowhere |
| CrateStacks.ParseMove | day5/code.rb:21 | a move is found iff the order matches somewhere |
| CrateStacks.MoveRoundTrip | day5/code.rb:21 | writing a move as "move n from a to b" and matching it gives the move back |
| CrateStacks.Apply | day5/code.rb:22-27 | the stacks the move names come to exist, and every other stack is unchanged |
| CrateStacks.ApplyMoves | day5/code.rb:22-25 | the top n crates (all when fewer) leave the source and land on the destination in the same order; a move onto itself changes nothing |
| CrateStacks.MoveConserves | day5/code.rb:22-25 | a move neither creates nor destroys crates |
| CrateStacks.ExecuteMoveOrder | day5/code.rb:19-29 | the order is carried out iff it matches the pattern, and no stack disappears |
| CrateStacks.UnloadCrates | day5/code.rb:31-41 | no stack disappears while the orders run |
| CrateStacks.UnloadConserves | day5/code.rb:31-41 | running every order neither creates nor destroys crates |
| CrateStacks.ObserveTopCratesInKeyOrder | day5/code.rb:43-47 | the answer is the top crates in stack-number order, reading any bound past the last stack the same way |
| CrateStacks.ParseStacksFixture | day5/code.rb:56-71 | the example drawing parses to ZN, MCD, P |
| CrateStacks.MoveFixtures | day5/code.rb:73-101 | the two example moves give the expected stacks, keeping crate order |
| CrateStacks.UnloadFixture | day5/code.rb:103-125 | the four example orders leave M, C, PZND |
| CrateStacks.TopsFixture | day5/code.rb:127-137 | the top crates of C, M, PDNZ read "CMZ" |
| Communication.Uniq | day6/code.rb:4 | `uniq` keeps each character once and loses none |
| Communication.UniqKeepsAllIffDistinct | day6/code.rb:4 | `uniq` keeps every character iff the window has no repeated character |
| Communication.Find | day6/code.rb:3-6 | the first window at or after the start index that has no repeat, answered as its end; none iff no later window qualifies |
| Communication.Detect | day6/code.rb:1-9 | the end of the first window of `size` distinct characters, no earlier window qualifying; none iff no window does |
| Communication.DetectIsFirst | day6/code.rb:1-9 | the answer is fixed by the windows alone: the first end whose window is distinct |
| Communication.ShortInputHasNoMarker | day6/code.rb:3 | input shorter than the marker holds none |
| Communication.RepeatSpoils | day6/code.rb:4 | two equal characters spoil every window holding both |
| Communication.PacketExample1 | day6/code.rb:20 | the first example's packet marker ends at 5 |
| Communication.PacketExample2 | day6/code.rb:21 | the second example's packet marker ends at 6 |
| Communication.PacketExample3 | day6/code.rb:22 | the third example's packet marker ends at 10 |
| Communication.PacketExample4 | day6/code.rb:23 | the fourth example's packet marker ends at 11 |
| Communication.MessageExample1 | day6/code.rb:25 | the first example's message marker ends at 19 |
| Communication.MessageExample2 | day6/code.rb:26 | the second example's message marker ends at 23 |
| Communication.MessageExample3 | day6/code.rb:27 | the third example's message marker ends at 23 |
| Communication.MessageExample4 | day6/code.rb:28 | the fourth example's message marker ends at 29 |
| Communication.MessageExample5 | day6/code.rb:29 | the fifth example's message marker ends at 26 |
| DirectoryTree.NewTree | day7/code.rb:55-61 | a new tree is the root "/" alone, with size 0 |
| DirectoryTree.AddDirectory | day7/code.rb:63-65 | a new empty child is appended to the current directory's list, nothing else changes, and the arena and size invariants are kept |
| DirectoryTree.Propagate | day7/code.rb:79-82 | the size grows on the node and every ancestor of it, and on no other node |
| DirectoryTree.AddFile | day7/code.rb:67-71 | the file is appended to the current directory; every ancestor's size grows by its size; nothing else changes; the invariants are kept |
| DirectoryTree.FirstNamed | day7/code.rb:74 | `find` gives the first listed child with the name, or none iff no child has it |
| DirectoryTree.Lookup | day7/code.rb:73-75 | `tree[name]` is the earliest child with that name, nil iff no child has it |
| DirectoryTree.AddDirectoryThenLookup | day7/code.rb:63-75 | after adding a directory, looking its name up gives the earlier same-named child if there was one, else the new one |
| DirectoryTree.DuplicateDirectoriesStaySeparate | day7/code.rb:63-75 | listing a name twice makes two directories; lookups reach the first |
| DirectoryTree.RootSizeDominates | day7/code.rb:79-82 | no directory is bigger than the root |
| DirectoryTree.ChildListComplete | day7/code.rb:64 | every node whose parent is i is on i's child list |
| DirectorySizes.SumWithinCapIsSubtreeSum | day7/code.rb:1-9 | the recursion adds, over the whole subtree, each directory whose size is within the cap |
| DirectorySizes.SumWithinCapCountsEachOnce | day7/code.rb:1-9 | from the root it adds every directory within the cap exactly once |
| DirectorySizes.SumWithinCapMonotone | day7/code.rb:3 | raising the cap never lowers the answer |
| DirectorySizes.SumWithinCapExtremes | day7/code.rb:3 | a negative cap gives 0; a cap at least the root's size adds every directory's size |
| DirectorySizes.CachedSizeIsSubtreeFiles | day7/code.rb:67-82 | each directory's cached size is the total size of the files anywhere below it |
| DirectorySizes.RootSizeIsAllFiles | day7/code.rb:79-82 | the root's size is the total of every file |
| TerminalHistory.Start | day7/code.rb:18-22 | the replay starts on a fresh root with the cursor on it and no command |
| TerminalHistory.Classify | day7/code.rb:28-37 | "$ cd /", "$ cd ..", "$ cd name" and "$ ls" are told apart in the `case` order, with the name recovered |
| TerminalHistory.CdRoundTrip | day7/code.rb:33-34 | `$ cd name` is read as a move into `name` for any other one-line name |
| TerminalHistory.Step | day7/code.rb:25-45 | a line keeps the tree well formed with sizes cached, never removes a node, and a fault carries its line number |
| TerminalHistory.Run | day7/code.rb:25-46 | the replay stops at the first faulting line, and otherwise keeps the invariants |
| TerminalHistory.RunAppend | day7/code.rb:25-46 | replaying two runs of lines is replaying the first, then the second from where it left off, numbering lines on; a fault in the first ends it |
| TerminalHistory.CdRootStep | day7/code.rb:29-30 | `$ cd /` puts the cursor on the root and ends any listing |
| TerminalHistory.CdUpStep | day7/code.rb:31-32 | `$ cd ..` moves the cursor to the current directory's parent |
| TerminalHistory.CdIntoStep | day7/code.rb:33-34 | `$ cd name` moves the cursor to the child that `tree[name]` finds |
| TerminalHistory.LsStep | day7/code.rb:35-36 | `$ ls` starts a listing and leaves the tree as it is |
| TerminalHistory.DirLineStep | day7/code.rb:38-40 | during a listing, "dir name" adds the directory `name` under the cursor and changes nothing else |
| TerminalHistory.FileLineStep | day7/code.rb:41-43 | during a listing, "size name" adds the file under the cursor with that size |
| TerminalHistory.StepAccounts | day7/code.rb:25-45 | one line grows the root by the size it lists, and the tree by the directory it lists, and nothing more |
| TerminalHistory.RunAccounts | day7/code.rb:25-46 | over a run of lines the root grows by exactly the listed file sizes and the tree by the listed directories |
| TerminalHistory.ParseTerminalHistory | day7/code.rb:11-50 | a replay that succeeds gives a well-formed tree with correct sizes; a failure names a line of the input |
| TerminalHistory.ParseAccounts | day7/code.rb:38-44 | the root's size is the sum of every listed file size, and there is one node per listed directory plus the root |
| TerminalHistory.CdUpAtRootLeavesNoDirectory | day7/code.rb:31-32 | `cd ..` at the root leaves the cursor nil without failing |
| TerminalHistory.CdIntoUnknownLeavesNoDirectory | day7/code.rb:33-34 | `cd` into a name with no such child leaves the cursor nil without failing |
| TerminalHistory.NilCursorRecovers | day7/code.rb:29-36 | with a nil cursor, `cd /` recovers and `ls` still succeeds |
| TerminalHistory.NilCursorFails | day7/code.rb:32-43 | with a nil cursor, `cd ..`, `cd name` and a well-formed listing line fail on that line |
| TerminalHistory.MissingNameFails | day7/code.rb:40-43 | a "dir" line without a name, or a file line without a second field, fails on that line |
| TerminalHistory.OutputOutsideListingIgnored | day7/code.rb:38 | output lines that do not follow `ls` change nothing |
| TerminalHistory.SolvePartOne | day7/code.rb:87-89 | the answer exists iff the replay succeeds, a failure is the replay's own, and the answer adds up, once each, the directories of the replayed tree of size at most 100000 |
| DirectoryExample.ListedFiles | day7/code.rb:41-43 | a listing of files under the cursor records them all in order and raises every directory above the cursor by their total |
| DirectoryExample.ReplayTranscript | day7/code.rb:25-46 | replaying a transcript shaped like the example's, for any file names and sizes, gives each directory exactly its listed files and each size the total below it |
| DirectoryExample.ParseTranscript | day7/code.rb:11-50 | `ParseTerminalHistory` of such a transcript's text builds that tree |
| DirectoryExample.ParseExample | day7/code.rb:93-121 | the example's text parses to its tree: "/" holding "a" and "d", "a" holding "e" |
| DirectoryExample.ExampleLayout | day7/code.rb:121-134 | the parsed tree reads back "/", its children "a" and "d", and each directory's files and subdirectories by name as the RSpec example lists them |
| DirectoryExample.SolveExample | day7/code.rb:138-169 | the example's answer under the cap 100000 is 95437 |
| DirectoryExample.AddDirectoryExample | day7/code.rb:172-183 | one directory "a" whose parent is the root, and `tree["a"]` finds it |
| DirectoryExample.AddFileExample | day7/code.rb:185-204 | the file is recorded with its size, and two files of 42 make the size 84 |
| TreeVisibility.ShortcutEffect | day8/code.rb:37-59 | as written, a tree is visible iff it is really visible, or it is in row `length - 1` or in column `height - 1` |
| TreeVisibility.BorderVisible | day8/code.rb:30-59 | every tree on the border is visible |
| TreeVisibility.SquareReadingsAgree | day8/code.rb:37-67 | on a square forest the written guards change no tree's visibility |
| TreeVisibility.CountIsVisiblePositions | day8/code.rb:20-26 | the count is the number of positions whose tree is visible |
| TreeVisibility.CountBounded | day8/code.rb:20-26 | the count is at most the number of trees, and 0 for an empty forest |
| TreeVisibility.SquareCountAsWrittenIsIntended | day8/code.rb:20-67 | on square forests the count as written is the intended count |
| TreeVisibility.NonSquareCounterexample | day8/code.rb:44 | on a 3-by-4 forest of equal trees, the count as written is 11 where 10 trees are visible |
| TreeVisibility.ParseRow | day8/code.rb:4 | one height per character of the stripped line, each digit read as its value and every other character as 0 |
| TreeVisibility.ParseForestOfRender | day8/code.rb:1-7 | writing a forest of single-digit heights as lines and parsing it gives the forest back |
| TreeVisibility.ParseExample | day8/code.rb:77-97 | the example text parses to the example forest |
| TreeVisibility.SolvePartOne | day8/code.rb:70-73 | the printed answer is the count as written: at most the number of trees, and on square forests exactly the number of visible trees |
| TreeVisibility.ExampleCount | day8/code.rb:99-111 | 21 trees of the example are visible, under either reading |

## Left out

- The command-line drivers (`if ARGV.any?`, `ARGF`, `puts`) and the RSpec scaffolding. The worked examples in the specs are proved as lemmas instead.
- Ruby's regular-expression engine. `CrateStacks.Scan` hand-writes what `/\s{4}\|\[\w\]/` finds. `CrateStacks.ParseMove` searches for the leftmost match of the move pattern. `TerminalHistory.Classify` applies `%r{\$ cd (.+)}` to a stripped, single-line command.
- `Text.ToI`, `Text.ParseInteger`: leading whitespace (which `to_i` skips, so `" 6".to_i` is 6 where `ToI(" 6")` is 0), signs, underscores, and the hexadecimal, octal and binary prefixes that `to_i` and `Integer` accept are not modelled. Only decimal digits are read. Every input of these puzzles is unsigned decimal with no leading whitespace.
- `Text.Strip`: treats ASCII whitespace and NUL as strippable at both ends; Ruby versions differ on a leading NUL. It ignores encodings, so "\r\n" line ends are handled only where stripping or chomping removes them.
- Strip: its own contract gives the shape of the result only (clean ends, empty iff all whitespace, clean lines unchanged), to keep it cheap for every caller. Which stretch of the line it keeps is stated by `Text.StripIsInfix`.
- Fields: its own contract gives the shape of the fields only. That they are the line's whitespace-separated runs, in order, is stated by `Text.FieldsOfLayout`.
- SplitFirst: its own contract gives the shape of the two parts only. That the first part is the whole first field and the second the text after the following whitespace run is stated by `Text.SplitFirstOfLayout` and `Text.SplitFirstOfOneField`.
- CalorieGroups.LinesOfJoin: assumes no line ends in "\r\n". `lines(chomp: true)` would remove that too.
- ElfLedger.RunExample: the worked example is proved from its entries onward. Reading its fourteen lines is covered per line shape (`ElfLedger.ReadsNumber`, `ElfLedger.ReadsBlank`), not for the text as a whole.
- `ElfLedger`: the model reads every line first and then runs the loop. An `Integer` failure aborts the call, so both orders fail on the same inputs and agree on the others.
- `RockPaperScissors.Round`: fields after the second are ignored, as `left, right = line.split` does.
- Communication.Detect: requires a marker size above 0, because Ruby's `each_cons(0)` raises `ArgumentError`. When no window qualifies, Ruby returns whatever the enumerator chain returns, which varies across Ruby versions. The model returns none.
- `CrateStacks`: a stack missing from the hash reads as empty and then exists, as the `Hash.new { \|h, k\| h[k] = [] }` default block does. This assumes the hash came from `ParseStacks`. The RSpec examples' literal hashes have no default block and would raise instead.
- `TreeVisibility.CountVisibleTrees`, `TreeVisibility.CountVisibleAsWritten`, `TreeVisibility.SolvePartOne`: modelled for rectangular forests only. On ragged rows the source compares against `nil` and may raise.
- `DirectoryTree`: trees are built only through `NewTree`, `AddDirectory` and `AddFile`, as the parser builds them. Other ways of building Ruby `Tree` objects are not modelled.
- DirectoryExample: the heredoc of the day 7 specs is modelled as its twenty-three lines, each with its "\n", joined (`ExampleInput`).

## Findings

| source | as written | input that shows it | evidently intended | confidence | as-written member | corrected member |
|---|---|---|---|---|---|---|
| day8/code.rb:43-59 | `visible_right?` returns true when the row index `x` is `length - 1` (the last column's index). `visible_down?` returns true when the column index `y` is `height - 1` (the last row's index). Each guard compares a coordinate with the other axis. | the forest of three rows of four equal trees, `5555` three times: as written 11 trees count as visible, but only the 10 border trees are | each guard tests the same coordinate as its direction (`y == length - 1`, `x == height - 1`) or is dropped, since the scan already sees an empty line of sight | high for non-square forests; the puzzle inputs are square, where both agree; not executed | TreeVisibility.NonSquareCounterexample | TreeVisibility.CountIsVisiblePositions |
