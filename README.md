# Advent of Code 2024 in Dafny

This project models the puzzle solutions of the Rust repository `advent_of_code_2024_rust`, days 1 to 18 and 20 to 25, and proves what each solution computes. Day 19 and the command-line driver are not part of this model.

Each source file `src/day_NN.rs` becomes one module `DayNN` in `dayNN.dfy`. Shared definitions live in `common.dfy` (module `Common`): `Option`, `Count`, `Sum`, `Distinct`, powers, digit counts and the truncating division of the source. The example of day 25 has its own module, `Day25Example`.

How the code is modelled:

- **Loops and in-place updates become methods.** Where the Rust code works step by step, the model uses Dafny methods with `while` or `for` loops over arrays and sequences. This covers the walk of day 6, the compaction of day 9, the depth-first searches of days 10 and 12, and the A* searches of days 16 and 18. Each such method is proved against a specification function.
- **The specification functions state the puzzle's meaning.** Examples are the cells a guard visits, the regions of a garden and the least-cost walks through a maze. Lemmas relate these functions to the code's answer.
- **Expression-style code stays pure.** The recursive searches of days 7, 21 and 24 become functions or predicates with lemmas.
- **Objects whose fields change become classes.** These are the robots of day 14 and the 3-bit machine of day 17.
- **Parsers are modelled as values.** Text parsing by `nom` is replaced by the parsed values, except where the parser is the puzzle itself: the `mul(a,b)` scanner of day 3 and the wire names of days 23 and 24.
- **Panics become preconditions.** A `panic!` or `expect` in the source turns into a `requires` on the model.
- **Some fixed-width arithmetic is written out.** The model spells out the truncating `/` and `%` of days 13, 14 and 17, the `as u32` exponent of day 17, and the 32-bit secret numbers of day 22. Everywhere else the integers are unbounded, so an overflow the source can reach on large inputs is not modelled: examples are the u64 `n * 2024` of day 11, the u64 sums of day 7 and the i64 products of day 13. "## Left out" names these day by day. Where the outcome of an overflow depends on the build, the model follows a debug build for `2_i64.pow` in day 17, treating overflow as a panic. For the usize `current_score - 1001` in day 16 it follows a release build, where there is no panic.

Nothing was executed. Every claim below is a statement the verifier checks.

## Model

| member | source | states |
|---|---|---|
| Day01.Lefts | src/day_01.rs:22 | the left column has one entry per line |
| Day01.Rights | src/day_01.rs:23 | the right column has one entry per line |
| Day01.Insert | src/day_01.rs:26-27 | inserting into a sorted list keeps it sorted and adds exactly that element |
| Day01.SortAscending | src/day_01.rs:26-27 | the sorted column is ascending and a permutation of the column |
| Day01.SortedUnique | src/day_01.rs:26-27 | two ascending lists with the same elements are equal, so the sort result is determined |
| Day01.TotalDistanceColumnOrder | src/day_01.rs:22-32 | the total distance depends only on the multiset of each column |
| Day01.LeftsRightsAppend | src/day_01.rs:22-23 | the columns of concatenated lines are the concatenated columns |
| Day01.ColumnsAt | src/day_01.rs:22-23 | entry k of each column comes from line k |
| Day01.ColumnsOfPermutation | src/day_01.rs:22-23 | permuting the lines permutes each column |
| Day01.LineOrderIrrelevant | src/day_01.rs:19-35 | part 1 does not depend on the order of the input lines |
| Day01.SimilarityConsRight | src/day_01.rs:42-58 | a right-column entry x adds x times the number of times x occurs on the left |
| Day01.SimilarityEmptyRight | src/day_01.rs:42-58 | an empty right column scores 0 |
| Day01.SimilaritySymmetric | src/day_01.rs:42-58 | the similarity score is the same with the two columns swapped |
| Day01.SimilarityScore | src/day_01.rs:37-61 | the appearance table and the fold give the similarity score: the sum over left entries of the entry times its occurrences on the right |
| Day01.ExamplePart1 | src/day_01.rs:67-77 | the example scores 11 for part 1 |
| Day01.ExampleColumns | src/day_01.rs:67-72 | the example's two columns |
| Day01.ExampleSorted | src/day_01.rs:26-27 | the example's sorted columns |
| Day01.ExampleDistance | src/day_01.rs:29-32 | the example's sorted columns are 11 apart |
| Day01.SortedIs | src/day_01.rs:26-27 | a sorted permutation of the column is the sort result |
| Day01.ExamplePart2 | src/day_01.rs:79-82 | the example scores 31 for part 2 |
| Day02.AllWindowsOkMeaning | src/day_02.rs:30-34 | every window is accepted iff every step moves 1 to 3 in the given direction |
| Day02.ReportSafeMeaning | src/day_02.rs:18-35 | a report is safe iff its levels all rise by 1 to 3 or all fall by 1 to 3 |
| Day02.RemoveLevel | src/day_02.rs:57 | the new report is one level shorter |
| Day02.SafeAfterRemovalFromMeaning | src/day_02.rs:56-62 | the loop finds a safe report iff dropping some level from the index on makes it safe |
| Day02.DampenedSafeMeaning | src/day_02.rs:49-65 | a report counts for part 2 iff it is safe or dropping exactly one level makes it safe |
| Day02.CheckDampened | src/day_02.rs:49-65 | the quick exit and the loop over the level to skip return the dampened verdict |
| Day02.SafeCount | src/day_02.rs:37-43 | part 1 counts at most every report |
| Day02.DampenedSafeCount | src/day_02.rs:45-67 | part 2 counts at most every report |
| Day02.DampenerOnlyAdds | src/day_02.rs:37-67 | every report counted by part 1 is counted by part 2 |
| Day02.ExamplePart1 | src/day_02.rs:73-83 | the example has 2 safe reports |
| Day02.NoRemovalHelps | src/day_02.rs:49-65 | an unsafe report that no single removal makes safe is not counted |
| Day02.SecondUnfixable | src/day_02.rs:74 | the report 1 2 7 8 9 stays unsafe with the dampener |
| Day02.ThirdUnfixable | src/day_02.rs:75 | the report 9 7 6 2 1 stays unsafe with the dampener |
| Day02.FourthFixable | src/day_02.rs:76 | the report 1 3 2 4 5 becomes safe when its second level is dropped |
| Day02.FifthFixable | src/day_02.rs:77 | the report 8 6 4 4 1 becomes safe when its third level is dropped |
| Day02.ExamplePart2 | src/day_02.rs:85-88 | the example has 4 reports safe with the dampener |
| Day03.SuffixTransitive | src/day_03.rs:29-34 | what is left after a remainder is left of the whole input |
| Day03.SuffixSplit | src/day_03.rs:29-34 | the input is the consumed text followed by the remainder |
| Day03.DropIsSuffix | src/day_03.rs:57-59 | skipping n characters leaves a remainder of the input |
| Day03.DigitsValue | src/day_03.rs:21-25 | the decimal value of a digit string is below 10 to the power of its length |
| Day03.LeadingDigitCount | src/day_03.rs:20 | the count of leading digits, capped: each is a digit and the next is not, unless the cap is reached |
| Day03.MulNumber | src/day_03.rs:18-27 | succeeds iff the input starts with a digit; then takes 1 to 3 digits, all it can up to 3, and returns their value below 1000 |
| Day03.MulNumberReadsDigitString | src/day_03.rs:18-27 | a digit string of length 1 to 3 followed by a non-digit is read whole, with its value |
| Day03.ParseMul | src/day_03.rs:29-34 | a success consumes part of the input |
| Day03.ParseArgs | src/day_03.rs:31 | a success consumes part of the input |
| Day03.ParseClose | src/day_03.rs:31 | a success consumes part of the input and keeps the first value |
| Day03.ParseCloseComplete | src/day_03.rs:31 | a digit string and `)` are accepted with the number's value |
| Day03.ParseArgsComplete | src/day_03.rs:31 | two digit strings around `,` followed by `)` are accepted with their values |
| Day03.ParseMulComplete | src/day_03.rs:29-34 | every text `mul(a,b)` with 1 to 3 digit numbers is accepted with their values, consuming exactly it |
| Day03.MulNumberSound | src/day_03.rs:18-27 | whatever `mul_number` accepts is a digit string and its value, followed by the remainder |
| Day03.ParseCloseSound | src/day_03.rs:31 | whatever is accepted is a digit string, `)` and the remainder |
| Day03.ParseArgsStep | src/day_03.rs:31 | a success reads a number and `,`, then the closing part |
| Day03.ParseArgsSound | src/day_03.rs:31 | whatever is accepted is a digit string, `,`, a digit string, `)` and the remainder |
| Day03.MulTextShape | src/day_03.rs:31 | the instruction text splits into its tags and numbers |
| Day03.ParseMulStep | src/day_03.rs:29-34 | a success starts with the tag `mul(` |
| Day03.ParseMulSound | src/day_03.rs:29-34 | whatever `parse_mul` accepts is a text `mul(a,b)` with digit strings a and b, followed by the remainder |
| Day03.ParseMulConsumes | src/day_03.rs:29-34 | `parse_mul` only succeeds by consuming input |
| Day03.FirstMatch | src/day_03.rs:54-62 | the first skip in the range at which the parser succeeds, or none exactly when it fails at every skip |
| Day03.SkipUpToMeaning | src/day_03.rs:51-67 | the skip parser fails iff the parser fails after every skip up to min(up_to, input length), and otherwise returns its result at the smallest skip that works |
| Day03.SkipUpToConsumes | src/day_03.rs:51-67 | skipping keeps a consuming parser consuming |
| Day03.SkipFindsFirst | src/day_03.rs:51-67 | when the parser first succeeds after n <= 1024 skipped characters, the skip parser returns that result |
| Day03.ParseInput | src/day_03.rs:70-72 | the unparsed tail is a suffix of the input |
| Day03.ParseInputStops | src/day_03.rs:70-72 | `many0` stops only where the skip parser fails on the tail |
| Day03.SumOfProductsAppend | src/day_03.rs:77 | the sum of products splits over concatenation |
| Day03.ParseInputLeadingMul | src/day_03.rs:74-78 | an instruction at the front is found first and adds its product to part 1 |
| Day03.ExampleMulNumberWhole | src/day_03.rs:93 | `mul_number("123")` reads 123 and leaves nothing |
| Day03.ExampleMulNumberStopsAtLetter | src/day_03.rs:95 | `mul_number("123abc")` reads 123 and leaves "abc" |
| Day03.ExampleMulNumberAtMostThree | src/day_03.rs:94 | `mul_number("1234")` reads 123 and leaves "4" |
| Day03.ExampleMulNumberNeedsDigit | src/day_03.rs:96 | `mul_number("abc123")` fails |
| Day03.ExampleValue123 | src/day_03.rs:93 | "123" is a digit string of value 123 |
| Day03.ExampleParseMulMissingClose | src/day_03.rs:104 | `parse_mul("mul(123,456")` fails |
| Day03.ExampleValue456 | src/day_03.rs:102 | "456" is a digit string of value 456 |
| Day03.ExamplePart1Single | src/day_03.rs:121 | part 1 of "mul(2,4)" is 8 |
| Day03.NotMul | src/day_03.rs:31 | `parse_mul` fails on a text not starting with 'm' |
| Day03.NoMulStart | src/day_03.rs:31 | `parse_mul` fails at every position of a text without 'm' |
| Day03.ParseInputAfterSkip | src/day_03.rs:51-72 | junk of at most 1024 characters where no instruction starts is skipped and the next instruction is found |
| Day03.ParseInputNothing | src/day_03.rs:63-72 | a short text where no instruction starts parses to nothing and is left whole |
| Day03.ExampleEmpty | src/day_03.rs:70-72 | the empty text parses to nothing |
| Day03.ExampleOpenParen | src/day_03.rs:114-115 | the text "(" parses to nothing and is left as the tail |
| Day03.ExamplePart1Skip | src/day_03.rs:122 | part 1 of "xmul(2,4)" is 8 |
| Day03.ExampleMulNumberOne | src/day_03.rs:92 | `mul_number("1")` reads 1 and leaves nothing |
| Day03.ExampleParseMulWhole | src/day_03.rs:102 | `parse_mul("mul(123,456)")` reads (123, 456) and leaves nothing |
| Day03.ParseInputJunkThenMul | src/day_03.rs:51-72 | junk of at most 1024 characters without an 'm' is skipped, and the instruction after it is found before the instructions of the rest |
| Day03.ExampleParseInputSingle | src/day_03.rs:108-111 | `parse_input_data("mul(123,456)")` finds [(123, 456)] and leaves nothing |
| Day03.ExamplePart1Tail | src/day_03.rs:123 | the text after `xmul(2,4)` in the last small `day_03_part_1` test parses to [(3, 7)] |
| Day04.Column | src/day_04.rs:60-65 | a column has one entry per row, entry i from row i |
| Day04.DropRows | src/day_04.rs:31 | dropping leading rows keeps a grid |
| Day04.DropColumns | src/day_04.rs:36 | dropping leading columns keeps the rows and shifts every entry |
| Day04.DiagWithOffsetElements | src/day_04.rs:27-41 | the diagonal at offset k reads g[k+i][i] for k >= 0 and g[i][i-k] for k < 0, until an edge |
| Day04.SwapAxes | src/day_04.rs:68 | the transpose swaps the dimensions |
| Day04.InvertRows | src/day_04.rs:69 | reversing the rows keeps the dimensions |
| Day04.Rotate | src/day_04.rs:67-69 | the rotated grid swaps the dimensions |
| Day04.RotateElements | src/day_04.rs:67-69 | the rotated entry (i, j) is the entry (j, ncols-1-i) |
| Day04.RotatedDiagonalsAreAntiDiagonals | src/day_04.rs:71-80 | the diagonals of the rotated grid are the anti-diagonals of the grid |
| Day04.Columns | src/day_04.rs:60-65 | there is one column per grid column |
| Day04.ExtractStrings | src/day_04.rs:43-83 | the strings are the rows, the columns, the two main diagonals and then the offset pairs, in push order |
| Day04.PushRowOffsetPairs | src/day_04.rs:73-76 | appends the diagonal pair of every row offset in turn |
| Day04.PushColumnOffsetPairs | src/day_04.rs:77-80 | appends the diagonal pair of every column offset in turn |
| Day04.RowOffsetPairsLength | src/day_04.rs:73-76 | two strings per row offset |
| Day04.ColumnOffsetPairsLength | src/day_04.rs:77-80 | two strings per column offset |
| Day04.AllStringsCount | src/day_04.rs:47 | exactly `3 * (nrows + ncols) - 2` strings are extracted, the reserved capacity |
| Day04.MatchCountBound | src/day_04.rs:102 | non-overlapping matches fit in the string |
| Day04.MatchCountMissingChar | src/day_04.rs:102 | a string lacking a letter of the pattern has no match |
| Day04.Part1 | src/day_04.rs:85-104 | part 1 is the sum of the XMAS and SAMX counts over the extracted strings |
| Day04.DiagCharsFromGrid | src/day_04.rs:27-41 | every letter of a diagonal is a letter of the grid |
| Day04.RotatedCharsFromGrid | src/day_04.rs:67-69 | every letter of the rotated grid is a letter of the grid |
| Day04.RowPairFromGrid | src/day_04.rs:73-76 | the two strings of a row offset hold only letters of the grid |
| Day04.ColumnPairFromGrid | src/day_04.rs:77-80 | the two strings of a column offset hold only letters of the grid |
| Day04.RowOffsetPairsFromGrid | src/day_04.rs:73-76 | the row-offset strings hold only letters of the grid |
| Day04.ColumnOffsetPairsFromGrid | src/day_04.rs:77-80 | the column-offset strings hold only letters of the grid |
| Day04.StringCharsFromGrid | src/day_04.rs:43-83 | every letter of every extracted string is a letter of the grid |
| Day04.TotalScoreZero | src/day_04.rs:100-103 | strings without an X score 0 |
| Day04.NoXScoresZero | src/day_04.rs:85-104 | a grid without the letter X scores 0 |
| Day04.ExampleDigitsOnly | src/day_04.rs:178 | the grid 01/23/45/67 scores 0 |
| Day04.ExampleDigitsWide | src/day_04.rs:179 | the grid 0123/4567 scores 0 |
| Day04.ExampleDigitsSquare | src/day_04.rs:180 | the grid 012/345/678 scores 0 |
| Day04.ExampleHexSquare | src/day_04.rs:181 | the grid 0123/4567/89AB/CDEF scores 0 |
| Day05.BeforesMeaning | src/day_05.rs:101-107 | a page is listed before b iff the rule a before b is given |
| Day05.BuildFasterRules | src/day_05.rs:101-107 | list p holds the pages the rules put before p, in rule order, for each of the 256 pages |
| Day05.Retain | src/day_05.rs:74 | retaining keeps exactly the other pages |
| Day05.IsValidUpdate | src/day_05.rs:59-78 | true iff no page has a required predecessor that is still to print |
| Day05.FasterRules | src/day_05.rs:101-107 | there is one list per page |
| Day05.ValidUpdateMeaning | src/day_05.rs:59-78 | an update without repeats is valid iff no rule puts a later page (or the page itself) before a page |
| Day05.SuccessorsUsed | src/day_05.rs:134-139 | every successor in the graph is a page of the update |
| Day05.PendingRelease | src/day_05.rs:153-158 | finishing a page releases exactly the rules leaving it |
| Day05.PendingZero | src/day_05.rs:155-156 | a page with no pending rule has all its used predecessors finished |
| Day05.PendingPositive | src/day_05.rs:155-156 | a pending rule comes from an unfinished page of the update |
| Day05.MarkPresence | src/day_05.rs:129-132 | marks exactly the pages of the update |
| Day05.BuildGraph | src/day_05.rs:134-139 | the graph holds the successors and the in-degrees count the used rules into each page |
| Day05.ZeroInDegree | src/day_05.rs:141-145 | the initial queue holds exactly the update's pages with in-degree 0, without repeats |
| Day05.OrderExtends | src/day_05.rs:150-151 | appending the popped page keeps every rule between sorted pages pointing forward |
| Day05.NoneRemain | src/day_05.rs:161-163 | when some topological order exists, the queue does not empty before every page is sorted |
| Day05.KahnAlgorithm | src/day_05.rs:125-172 | the sorted order lists each page of the update once with every used rule pointing forward, and the table gives each page's position |
| Day05.ReleaseSuccessors | src/day_05.rs:153-158 | each successor loses one pending rule and joins the back of the queue when it has none left |
| Day05.PagesBelow | src/day_05.rs:165-169 | lists every page below n |
| Day05.RankTable | src/day_05.rs:165-169 | the table maps the page at position i to i |
| Day05.FlattenRanked | src/day_05.rs:94-96 | flattening rank slots lists exactly the present pages, in increasing rank |
| Day05.SortWithLookupTable | src/day_05.rs:80-99 | the output is in increasing rank, holds only input pages, and is a permutation of the input when the ranks differ |
| Day05.StrictRunIsIdentity | src/day_05.rs:80-99 | a strictly increasing run of n ranks below n is 0 to n-1 |
| Day05.LowerBound | src/day_05.rs:80-99 | the i-th entry of a strictly increasing run of naturals is at least i |
| Day05.UpperBound | src/day_05.rs:80-99 | the i-th entry of a strictly increasing run below n is at most i |
| Day05.SortedByRankIsOrder | src/day_05.rs:183-184 | sorting the update by the Kahn rank table gives back Kahn's order |
| Day05.RanksOfPermutation | src/day_05.rs:183-184 | the rank of each output page is its position in Kahn's order |
| Day05.Part1 | src/day_05.rs:109-120 | part 1 is the sum of the middle pages of the valid updates |
| Day05.InvalidUpdates | src/day_05.rs:181 | the filtered updates are updates of the input |
| Day05.Part2 | src/day_05.rs:174-188 | each invalid update is reordered into a topological order of its pages and the middle pages of these are summed |
| Day05.ReorderUpdate | src/day_05.rs:182-185 | the reordered update is a topological order of the update |
| Day05.RanksDiffer | src/day_05.rs:165-184 | the rank table of a Kahn order tells the update's pages apart |
| Day06.Rotate | src/day_06.rs:31-38 | a quarter turn right never keeps the direction |
| Day06.RotateFourTimes | src/day_06.rs:31-38 | four quarter turns give the direction back, two or three do not |
| Day06.FacingPosition | src/day_06.rs:40-57 | None exactly when the next cell in the facing direction is off the map, otherwise that neighbouring cell |
| Day06.Move | src/day_06.rs:118-125 | one iteration of the walk keeps the guard on the map |
| Day06.MoveMeaning | src/day_06.rs:118-125 | one iteration either turns right in place before an obstruction or steps in the facing direction onto a cell that is not obstructed |
| Day06.Walk | src/day_06.rs:118-125 | every state reached by iterating the move stays on the map |
| Day06.Trail | src/day_06.rs:116-124 | the set of cells visited contains the start cell and the cell the guard stands on |
| Day06.TrailAvoidsObstructions | src/day_06.rs:118-125 | when the start is not obstructed, no cell of the trail is obstructed |
| Day06.WalkStep | src/day_06.rs:118-125 | one more iteration applies one more move and adds exactly the cell the guard is then on to the trail |
| Day06.FindStart | src/day_06.rs:108-111 | returns the first Start cell in row-major order |
| Day06.MarkStart | src/day_06.rs:116 | afterwards exactly the start cell is Visited and every other cell is as parsed |
| Day06.Begin | src/day_06.rs:108-116 | the walk invariant holds before the first iteration: the start faces up and only it is Visited |
| Day06.Advance | src/day_06.rs:119-124 | performs the move the walk prescribes and marks the cell stepped on, so the Visited cells are the trail so far |
| Day06.Iterate | src/day_06.rs:118-125 | stops exactly when the guard faces the edge of the map; otherwise the Visited cells are the trail one step further |
| Day06.GuardWalk | src/day_06.rs:100-128 | when the guard leaves the map, the Visited cells are exactly its trail, no obstruction is overwritten and the count lies between 1 and rows times columns |
| Day06.CountVisited | src/day_06.rs:128 | counts the Visited cells of the whole map |
| Day06.VisitedCountAtMost | src/day_06.rs:128 | the number of Visited cells is at most rows times columns |
| Day06.VisitedCountPositive | src/day_06.rs:128 | one Visited cell makes the count at least 1 |
| Day06.Settled | src/day_06.rs:116-128 | at any point of the walk, obstructions are unmarked and the Visited count is between 1 and rows times columns |
| Day07.PlaceValueBounds | src/day_07.rs:34 | the place value of a positive number is the least power of ten above it: larger than n and at most 10n |
| Day07.SearchEmpty | src/day_07.rs:43 | with no numbers left the search succeeds exactly when the remaining value equals the first number |
| Day07.ConcatSuffix | src/day_07.rs:34-37 | removing the place value of the last number from a concatenation gives back its left operand exactly |
| Day07.SearchIsCorrected | src/day_07.rs:20-44 | every value the as-written search accepts is accepted by the search with the guard `current >= last` |
| Day07.ZeroMissesPositive | src/day_07.rs:20-44 | from the value 0 the corrected search never reaches a positive first number |
| Day07.SearchGuardsAgree | src/day_07.rs:20-44 | with a positive first number the strict guard `current > last` and the guard `current >= last` accept exactly the same values |
| Day07.SearchSound | src/day_07.rs:20-44 | a successful corrected search yields one allowed operator per number that evaluates left to right to the value searched for |
| Day07.EvaluateAtLeastFirst | src/day_07.rs:20-44 | with positive operands, no allowed operator choice evaluates below the first number |
| Day07.SearchComplete | src/day_07.rs:20-44 | for every allowed operator choice and every first number, 0 included, the corrected backward search from its value succeeds, so the pruning never loses a solution |
| Day07.ValidCaseMeaning | src/day_07.rs:46-51 | with the corrected guard, an equation is valid exactly when some allowed operator choice combines its numbers left to right into the target, for every first number |
| Day07.ValidCaseAsWritten | src/day_07.rs:20-51 | with a positive first number, `is_valid_case` as written gives the corrected verdict, so the iff above holds for it too |
| Day07.ZeroFirstOperandMissed | src/day_07.rs:23-28 | as written, part 1 rejects `5: 0 5` although 0 + 5 = 5; the corrected search accepts it |
| Day07.ConcatOnlyAdds | src/day_07.rs:32-41 | enabling concatenation never turns a successful corrected search into a failed one |
| Day07.PartTwoAtLeastPartOne | src/day_07.rs:67-84 | for every list of equations whose operands after the first are positive, the calibration total with concatenation is at least the total without it |
| Day07.ExampleCase190 | src/day_07.rs:90 | 190: 10 19 is valid with and without concatenation |
| Day07.ExampleCase3267 | src/day_07.rs:91 | 3267: 81 40 27 is valid with and without concatenation |
| Day07.ExampleCase83 | src/day_07.rs:92 | 83: 17 5 is invalid with and without concatenation |
| Day07.ExampleCase156 | src/day_07.rs:93 | 156: 15 6 is valid only with concatenation |
| Day07.ExampleCase7290 | src/day_07.rs:94 | 7290: 6 8 6 15 is valid only with concatenation |
| Day07.ExampleCase161011 | src/day_07.rs:95 | 161011: 16 10 13 is invalid with and without concatenation |
| Day07.ExampleCase192 | src/day_07.rs:96 | 192: 17 8 14 is valid only with concatenation |
| Day07.ExampleCase21037 | src/day_07.rs:97 | 21037: 9 7 18 13 is invalid with and without concatenation |
| Day07.ExampleCase292 | src/day_07.rs:98 | 292: 11 6 16 20 is valid with and without concatenation |
| Day08.AsciiToKey | src/day_08.rs:22-31 | '.' is the only character without a key; every key is below 62; upper case, lower case and digits map to consecutive key ranges |
| Day08.AsciiToKeyInjective | src/day_08.rs:22-31 | two characters with the same key are the same character |
| Day08.GroupRow | src/day_08.rs:67-71 | scanning one row appends to each key's group exactly that row's antennas of the key, in scan order and without repeats |
| Day08.GroupedPush | src/day_08.rs:68-69 | pushing an antenna position onto its key's group keeps every group equal to the antennas scanned so far |
| Day08.GroupedSkip | src/day_08.rs:68 | skipping an empty cell keeps every group equal to the antennas scanned so far |
| Day08.GroupAntennas | src/day_08.rs:65-71 | group k holds exactly the positions of the antennas with key k, each once |
| Day08.Antinode | src/day_08.rs:94-97 | the antinode of a pair lies at the same offset from the first antenna as the first antenna from the second |
| Day08.PairsFromMember | src/day_08.rs:85-103 | the in-map antinodes produced with antenna i first are exactly those of the ordered pairs (i, j') with j' different from i |
| Day08.GroupPairsMember | src/day_08.rs:85-103 | the in-map antinodes of one group are exactly those of its ordered pairs of distinct antennas (the 2-permutations) |
| Day08.AllPairsMember | src/day_08.rs:77-113 | the in-map antinodes of all groups are exactly those of the ordered pairs of distinct antennas within some group |
| Day08.PairIsAntinode | src/day_08.rs:77-113 | every cell produced from a pair of a group is an antinode of two same-frequency antennas of the map |
| Day08.AntinodeIsPair | src/day_08.rs:77-113 | every antinode of two same-frequency antennas of the map is produced from a pair of their group |
| Day08.AllPairsAreAntinodes | src/day_08.rs:77-113 | the cells produced from the groups are exactly the antinode cells of the map |
| Day08.MarkFrom | src/day_08.rs:85-103 | after the pairs with antenna i first, the presence map marks exactly the earlier cells plus their in-map antinodes |
| Day08.MarkGroup | src/day_08.rs:85-111 | after one group, the presence map marks exactly the earlier cells plus the group's in-map antinodes |
| Day08.MarkAntinodes | src/day_08.rs:73-113 | the presence map has the grid's shape and marks exactly the in-map antinodes of all groups |
| Day08.CountRow | src/day_08.rs:117-120 | after one more row the count equals the number of marked cells in the rows scanned so far |
| Day08.CountPresent | src/day_08.rs:117-120 | counts exactly the marked cells, at most rows times columns |
| Day08.Part1 | src/day_08.rs:61-121 | the answer is the number of distinct in-map antinode cells of the map, at most rows times columns |
| Day08.SquareGridsAgree | src/day_08.rs:101 | on a square map the bounds test with rows and columns swapped accepts exactly the in-map cells |
| Day08.SwappedCheckMissesAntinode | src/day_08.rs:86-102 | on the one-row map "aa." the swapped bounds test rejects the antinode (0, 2), and on a 2 by 3 map it accepts row 2, which is off the map |
| Day09.Repeat | src/day_09.rs:29-30 | n copies of one value |
| Day09.BlocksAppend | src/day_09.rs:58-61 | the file blocks of two memory pieces laid end to end are the blocks of each in turn |
| Day09.BlocksRepeat | src/day_09.rs:29-30 | a run of one file's blocks contributes that many ids, a run of free space none |
| Day09.LayoutSize | src/day_09.rs:20-34 | the laid-out disk has as many cells as the sum of the digits, and as many file blocks as the final size |
| Day09.BlocksLayout | src/day_09.rs:25-33 | each pair of digits contributes its file's blocks followed by the blocks of the rest of the map |
| Day09.LayoutFileBlocks | src/day_09.rs:25-33 | file number c occupies exactly as many blocks as the digit at position 2c |
| Day09.LayoutIdsAbove | src/day_09.rs:25-33 | the files laid out from id onwards carry ids of at least id |
| Day09.BuildMemory | src/day_09.rs:20-34 | the memory is the disk layout of the digits and the final size is the total size of the files |
| Day09.Fill | src/day_09.rs:39-53 | filling the free cells of a prefix from a supply of moved blocks keeps its length |
| Day09.HolesBalance | src/day_09.rs:39-53 | the free cells among the first f cells are exactly as many as the blocks lying after position f, f being the number of blocks |
| Day09.Compacted | src/day_09.rs:39-55 | compaction keeps the memory's length |
| Day09.FillKeeps | src/day_09.rs:40-48 | filling leaves no free cell in the prefix and keeps every block already in place |
| Day09.FillBlocks | src/day_09.rs:40-48 | each file's number of blocks after filling is its number in the prefix plus its number among the supply used |
| Day09.CompactedLayout | src/day_09.rs:39-55 | after compaction the first f cells are all occupied, the blocks already there stay, and every cell from f on is free |
| Day09.CompactedKeepsFiles | src/day_09.rs:39-53 | compaction keeps each file's number of blocks |
| Day09.CompactedPermutes | src/day_09.rs:39-53 | the ids of the compacted memory are a permutation of the original ids |
| Day09.SkipFree | src/day_09.rs:41-46 | moves the end index down past free cells until it finds a block or reaches i, and every cell skipped is free |
| Day09.CompactingMove | src/day_09.rs:47-50 | moving the last block into the free slot at i keeps the compaction invariant one slot further |
| Day09.CompactingStop | src/day_09.rs:41-46 | when no block lies between i and the end, the memory is already the compacted one |
| Day09.FillSlot | src/day_09.rs:40-51 | filling one free slot either finishes the compaction or keeps the invariant with a smaller end index |
| Day09.Compact | src/day_09.rs:37-53 | the two-index loop turns the memory into its compaction |
| Day09.TruncateKeepsBlocks | src/day_09.rs:55 | resizing to the final size drops only free cells |
| Day09.CompactedDisk | src/day_09.rs:20-55 | the compacted disk has exactly the final size |
| Day09.Part1 | src/day_09.rs:16-64 | the answer is the checksum of the compacted and truncated disk |
| Day09.WeightedSumSnoc | src/day_09.rs:58-63 | appending an id adds it times its position to the checksum |
| Day09.ChecksumPositional | src/day_09.rs:58-63 | on a disk without free cells, the sum over the flattened blocks equals the sum of each cell's position times its id |
| Day09.CompactedDiskChecksum | src/day_09.rs:55-63 | the compacted disk has no free cells, so its checksum weighs each id by its own position |
| Day10.AsciiToHeight | src/day_10.rs:13-19 | '.' is the only character without a height; a digit maps to its value 0 to 9 |
| Day10.DescentHeights | src/day_10.rs:60-72 | along a descent the height drops by exactly one per cell |
| Day10.TrailLength | src/day_10.rs:60-72 | a descent from a top at 9 to a trailhead at 0 has exactly ten cells with heights 9 down to 0 |
| Day10.ReachesSelf | src/day_10.rs:48 | every cell is reached from itself, so the top's own counter rises |
| Day10.ReachesStep | src/day_10.rs:60-72 | a unit descent from a reached cell reaches its neighbour |
| Day10.SuccessorsMeaning | src/day_10.rs:60-72 | every pushed item is a neighbour one unit lower with that height |
| Day10.SuccessorsComplete | src/day_10.rs:60-72 | every neighbour one unit lower is pushed |
| Day10.SearchedAll | src/day_10.rs:51-73 | when the pile is empty, the visited cells are exactly the cells reachable from the top |
| Day10.ClosedAlong | src/day_10.rs:51-73 | with an empty pile, every cell of every descent from the top has been visited |
| Day10.PopVisited | src/day_10.rs:52-54 | dropping an already visited item keeps the search invariant |
| Day10.VisitBottom | src/day_10.rs:55-59 | visiting a cell at height 0 and pushing nothing keeps the search invariant |
| Day10.PushedItems | src/day_10.rs:60-72 | every pushed item lies on the map, has the height carried with it and is reachable from the top |
| Day10.VisitAndPush | src/day_10.rs:55-72 | visiting a cell and pushing its lower neighbours keeps the search invariant |
| Day10.Mark | src/day_10.rs:55-56 | marks a new cell visited and raises its counter by one, nothing else |
| Day10.Visit | src/day_10.rs:51-73 | one pop keeps both invariants and either shrinks the pile or visits a new cell |
| Day10.Explore | src/day_10.rs:48-73 | the depth-first search from one top raises by one exactly the counters of the cells reachable from it |
| Day10.SearchTallied | src/day_10.rs:51-73 | once the search is complete, each counter rose exactly when its cell is reachable from the top |
| Day10.ScoreBound | src/day_10.rs:76-79 | a trailhead's score is at most the number of cells |
| Day10.TopsReachingNext | src/day_10.rs:44-47 | one more cell in row-major order adds it to the reaching tops exactly when it is a top that reaches the cell |
| Day10.RowEnd | src/day_10.rs:44-47 | the end of one row is the start of the next in row-major order |
| Day10.TopsCounted | src/day_10.rs:44-74 | the tops before a position in row-major order that reach a cell are as many as the row-by-row count |
| Day10.ScoreCounted | src/day_10.rs:44-74 | a cell's score equals the row-by-row count over all tops |
| Day10.ProcessCell | src/day_10.rs:44-74 | processing one cell (exploring it when it is a top) keeps each counter equal to the tops so far that reach its cell |
| Day10.CountReachingTops | src/day_10.rs:41-74 | afterwards each counter is the number of tops from which its cell can be reached |
| Day10.Part1 | src/day_10.rs:36-80 | the answer is the sum over the trailheads of the number of tops from which they can be reached |
| Day11.NbDigitsExact | src/day_11.rs:14-19 | a number between 10^(k-1) and 10^k has exactly k digits, and 0 has one |
| Day11.Pow10Add | src/day_11.rs:26 | powers of ten multiply by adding exponents |
| Day11.SplitMeaning | src/day_11.rs:21-31 | for an even digit count 2h, the left half times 10^h plus the right half gives the number back, the right half is below 10^h and the left half has exactly h digits |
| Day11.Rewrite | src/day_11.rs:36-45 | one stone becomes one or two stones |
| Day11.BlinkAppend | src/day_11.rs:33-47 | blinking a row of stones is blinking each part and concatenating |
| Day11.BlinkLength | src/day_11.rs:33-47 | a blink at least keeps and at most doubles the number of stones |
| Day11.BlinkTimesLength | src/day_11.rs:53-55 | after k blinks the number of stones is between the start count and 2^k times it |
| Day11.Part1 | src/day_11.rs:49-57 | the answer is the number of stones after 25 blinks, between the start count and 2^25 times it |
| Day11.ExampleSplits | src/day_11.rs:81-87 | the split examples: 10, 21, 1234, 1234567890 and 1000 |
| Day11.ExampleBlink | src/day_11.rs:90-95 | blinking 0 1 10 99 999 gives 1 2024 1 0 9 9 2021976 |
| Day12.ConnectedSelf | src/day_12.rs:40 | every plot belongs to its own region |
| Day12.ConnectedStep | src/day_12.rs:51-86 | a step to a same-letter neighbour stays in the region |
| Day12.ConnectedClosed | src/day_12.rs:51-86 | a set closed under same-letter steps contains both ends of a connection or neither |
| Day12.ForwardAlong | src/day_12.rs:51-86 | a closed set containing the start of a walk contains every plot of it |
| Day12.BackwardAlong | src/day_12.rs:51-86 | a closed set containing the end of a walk contains every plot of it |
| Day12.ConnectedLetter | src/day_12.rs:52-82 | connected plots lie on the map and carry the same letter |
| Day12.LetterAlong | src/day_12.rs:52-82 | every plot of a walk carries the letter of its first plot |
| Day12.SidesOfBound | src/day_12.rs:51-86 | a plot has at most four fence sides |
| Day12.FencesAdd | src/day_12.rs:51-86 | adding a plot to a set adds exactly its own fence sides |
| Day12.FencesBound | src/day_12.rs:51-86 | a set of plots has at most four fence sides per plot |
| Day12.PerimeterBound | src/day_12.rs:89 | a region's perimeter is at most four times its area |
| Day12.SearchedAll | src/day_12.rs:42-87 | when the pile is empty, the filled plots are exactly the region of the start plot |
| Day12.PopFilled | src/day_12.rs:43-45 | dropping an already filled plot keeps the search invariant |
| Day12.CheckSide | src/day_12.rs:51-59 | one side adds a fence when the neighbour is off the map or of another letter, and pushes the neighbour otherwise |
| Day12.PushedMore | src/day_12.rs:51-86 | pushing a same-letter neighbour extends the pushed sequence by that neighbour |
| Day12.FillAndPush | src/day_12.rs:47-86 | filling a plot and pushing its same-letter neighbours keeps the search invariant |
| Day12.CheckSides | src/day_12.rs:51-86 | the four sides add exactly the plot's fence sides, at most four, and push exactly its same-letter neighbours |
| Day12.SideChecked | src/day_12.rs:51-86 | one more side checked keeps the per-plot invariant |
| Day12.SidesNext | src/day_12.rs:51-86 | the fence sides of the first d+1 directions are those of the first d plus direction d when it has a fence |
| Day12.Visit | src/day_12.rs:42-87 | one pop keeps the search invariant and the area and fence tally, and either shrinks the pile or fills a new plot |
| Day12.MarkFilled | src/day_12.rs:47 | marks one more plot visited and nothing else |
| Day12.Fill | src/day_12.rs:47-86 | filling one new plot adds one to the area, adds its fence sides to the borders and keeps the search invariant |
| Day12.FloodFill | src/day_12.rs:38-87 | the flood fill from an unvisited plot computes the area and perimeter of its region and marks exactly that region in addition |
| Day12.RegionClosed | src/day_12.rs:42-87 | a region is closed under same-letter steps |
| Day12.CoveredClosed | src/day_12.rs:33-90 | the plots covered by the regions of the plots before a position are closed under same-letter steps |
| Day12.CoveredMeaning | src/day_12.rs:33-90 | a plot is covered before a position exactly when it is connected to some plot before that position in row-major order |
| Day12.CoveredSeed | src/day_12.rs:33-90 | every covered plot is connected to some earlier plot |
| Day12.SeedCovers | src/day_12.rs:33-90 | every plot connected to an earlier plot is covered |
| Day12.LeaderMeaning | src/day_12.rs:34-36 | a plot starts a new region exactly when no earlier plot is connected to it |
| Day12.CoveredRegion | src/day_12.rs:34-36 | a plot that does not start a new region has its region covered already; one that does has a region disjoint from the covered plots |
| Day12.CoveredGrows | src/day_12.rs:33-90 | one more plot in row-major order covers exactly its region's area more when it starts a region, nothing more otherwise |
| Day12.CoveredAll | src/day_12.rs:33 | after the last plot every plot of the map is covered |
| Day12.CoveredCount | src/day_12.rs:33-90 | the number of plots covered before a position is the sum of the areas of the regions started so far |
| Day12.AreasCoverMap | src/day_12.rs:33-90 | the areas of all regions add up to the number of plots: each plot is priced in exactly one region |
| Day12.PriceCell | src/day_12.rs:33-90 | one plot either is skipped as visited or adds its region's area times perimeter, keeping the total equal to the price of the regions started so far |
| Day12.SkipCell | src/day_12.rs:34-36 | a visited plot adds nothing to the price |
| Day12.NothingPriced | src/day_12.rs:30-31 | with nothing visited the total of nothing priced is 0 |
| Day12.PriceRowCells | src/day_12.rs:33-90 | one row of plots keeps the total equal to the price of the regions started so far |
| Day12.RowPriced | src/day_12.rs:33 | the end of one row is the start of the next |
| Day12.Part1 | src/day_12.rs:25-93 | the answer is the sum over the regions, each taken once at its first plot in row-major order, of area times perimeter |
| Day13.ClicksPerButton | src/day_13.rs:34-68 | a returned pair of click counts puts the claw exactly on the prize |
| Day13.TruncDivExact | src/day_13.rs:58-59 | the source's truncating division is exact on multiples, also for negative operands |
| Day13.Eliminate | src/day_13.rs:45-56 | any solution satisfies the equation with B eliminated: a times the determinant equals x*b_y - y*b_x |
| Day13.ClicksExact | src/day_13.rs:34-68 | the result is Some((a, b)) exactly when pressing A a times and B b times reaches the prize |
| Day13.ClicksNone | src/day_13.rs:63-64 | the result is None exactly when no pair of click counts reaches the prize |
| Day13.SolutionUnique | src/day_13.rs:34-68 | with a non-zero determinant a machine has at most one solution |
| Day13.ToPartTwo | src/day_13.rs:70-79 | the buttons stay and both prize coordinates move by 10000000000000 |
| Day13.ToPartTwoDivisible | src/day_13.rs:70-79 | moving the prize does not change whether the divisions are defined |
| Day13.TotalTokensAppend | src/day_13.rs:133-136 | the token total of two lists of machines is the sum of their totals |
| Day13.TokensOfSolution | src/day_13.rs:134-135 | a solvable machine costs 3 tokens per A press plus 1 per B press of its unique solution |
| Day13.PartTwoMachines | src/day_13.rs:142-143 | every machine is moved to part two, in order |
| Day13.ExamplePart1 | src/day_13.rs:153-172 | the four example machines cost 480 tokens |
| Day13.ExamplePart2 | src/day_13.rs:153-177 | after moving the prizes they cost 875318608908 tokens |
| Day14.TruncRem | src/day_14.rs:61-62 | the source's remainder keeps the sign of the dividend and is smaller than the divisor in magnitude |
| Day14.WrapEuclidean | src/day_14.rs:61-62 | adding the modulus and taking the remainder again gives the non-negative remainder |
| Day14.Wrap | src/day_14.rs:61-62 | the wrapped coordinate lies in [0, d) |
| Day14.MoveRobot | src/day_14.rs:60-64 | the moved robot lies inside the area |
| Day14.MoveRobotMeaning | src/day_14.rs:60-64 | each coordinate is the start plus velocity times time, taken modulo the area's size |
| Day14.MoveCompose | src/day_14.rs:60-64 | moving for t seconds and then for s seconds is moving for t + s seconds |
| Day14.MovePeriodic | src/day_14.rs:60-64 | every robot is back where it was after wide times tall seconds |
| Day14.Robot.UpdatePosition | src/day_14.rs:67-71 | the robot moves as move_robot says and keeps its velocity |
| Day14.Positions | src/day_14.rs:128-130 | the robots' positions, in order |
| Day14.Velocities | src/day_14.rs:128-130 | the robots' velocities, in order |
| Day14.Moved | src/day_14.rs:128-130 | one moved position per robot |
| Day14.MovedAt | src/day_14.rs:128-130 | each moved position is that robot moved as move_robot says |
| Day14.MovedCompose | src/day_14.rs:159-163 | moving all robots t seconds and then s seconds is moving them t + s seconds |
| Day14.Quadrant | src/day_14.rs:133-145 | robots on a middle line are in no quadrant; otherwise the quadrant says whether it is right of and below the middle |
| Day14.Quadrants | src/day_14.rs:128-146 | the quadrant of each moved robot, in order |
| Day14.QuadrantsPartition | src/day_14.rs:128-146 | every robot is counted in exactly one of the four quadrants or on a middle line |
| Day14.Tally | src/day_14.rs:133-145 | exactly the counter of the robot's quadrant rises by one |
| Day14.Part1 | src/day_14.rs:109-149 | the answer is the product of the four quadrant counts after 100 seconds, with the area chosen by the number of robots |
| Day14.Clear | src/day_14.rs:165 | afterwards no position is marked |
| Day14.FindOverlap | src/day_14.rs:165-175 | reports an overlap exactly when two robots share a position |
| Day14.StepAll | src/day_14.rs:161-163 | every robot moves one second and keeps its velocity |
| Day14.OverlapNext | src/day_14.rs:159-179 | finding an overlap at one more time extends the overlap run |
| Day14.NextMoved | src/day_14.rs:160-163 | one second after time t the robots stand where moving them t + 1 seconds puts them |
| Day14.Tick | src/day_14.rs:160-178 | one iteration advances time by one, moves every robot one second and reports an overlap exactly when two robots then share a position |
| Day14.Part2 | src/day_14.rs:151-181 | the answer is the first second at which no two robots share a position |
| Day14.ExampleMoves | src/day_14.rs:187-198 | two example robots after 100 seconds on the 11 by 7 area |
| Day15.Set | src/day_15.rs:161 | overwriting one cell changes that cell and no other |
| Day15.Next | src/day_15.rs:100-125 | there is no next cell exactly when the position is at the edge in that direction; otherwise the next cell is one step closer to that edge |
| Day15.ChainEnd | src/day_15.rs:127-143 | the end of the line of boxes is the first cell along the direction that is not a box, and it lies on the map |
| Day15.PushResult | src/day_15.rs:127-143 | a failed push changes nothing; the push succeeds exactly when the line of boxes ends on an empty cell; then the pusher is one step on and its cell is left empty |
| Day15.PushKeepsWalls | src/day_15.rs:127-143 | a push never creates, moves or removes a wall |
| Day15.PushKeepsBoxes | src/day_15.rs:127-143 | a push keeps the number of boxes |
| Day15.PushKeepsNoRobot | src/day_15.rs:130 | on a map whose robot was cleared, the panic arm is never reached and no robot cell appears |
| Day15.PushCells | src/day_15.rs:127-143 | a successful push empties the pusher's cell, moves its content one step and puts a box at the end of the line; every other cell is unchanged |
| Day15.SwapCellsAt | src/day_15.rs:132 | swapping two cells exchanges their contents and leaves all others |
| Day15.PushStep | src/day_15.rs:135-142 | pushing into a box succeeds exactly when the box's own push succeeds, and then it is that push followed by one swap |
| Day15.PushIntoEmpty | src/day_15.rs:131-134 | pushing into an empty cell swaps the two cells and moves on |
| Day15.SwapCells | src/day_15.rs:132 | the map after the swap is the two cells exchanged |
| Day15.AttemptPush | src/day_15.rs:92-144 | the recursive in-place push returns the success flag and new position and leaves the map that the declarative push describes |
| Day15.Run | src/day_15.rs:165-172 | following the directions keeps the map's shape, the robot on the map and the map free of robot cells |
| Day15.RunKeepsBoxesAndWalls | src/day_15.rs:165-172 | following the directions keeps the number of boxes and every wall |
| Day15.GpsOfBoxes | src/day_15.rs:174-177 | the GPS sum depends only on where the boxes are |
| Day15.FindRobot | src/day_15.rs:150-159 | returns the first robot cell in row-major order |
| Day15.SumGps | src/day_15.rs:174-177 | the sum over the boxes of 100 times the row plus the column |
| Day15.ClearRobot | src/day_15.rs:161 | with exactly one robot, clearing its cell leaves a map without robots |
| Day15.Part1 | src/day_15.rs:146-178 | the final map is the robot's cell cleared and then every direction followed, and the answer is its GPS sum |
| Day15.BoxesMeaning | src/day_15.rs:174-177 | the set of boxes holds exactly the cells of the map that hold a box |
| Day16.ManhattanStep | src/day_16.rs:67-69 | one move changes the Manhattan distance to a target by at most one (the heuristic is consistent) |
| Day16.ScanRow | src/day_16.rs:75-81 | after a row, the options hold the last `S` and last `E` up to that row, row-major |
| Day16.FindStartAndExit | src/day_16.rs:71-87 | returns the last `S` and the last `E` in row-major order; requires both exist (else `expect` panics) |
| Day16.IsLastUnique | src/day_16.rs:71-87 | the last cell holding a value is unique |
| Day16.PopMin | src/day_16.rs:132 | `BinaryHeap` pop of `Reverse` tuples: a least entry in tuple order, the rest is the multiset minus it |
| Day16.ChildrenExact | src/day_16.rs:152-178 | pushed entries are exactly the moves onto open neighbours, at cost +1 or +1001, scored g + Manhattan |
| Day16.Expand | src/day_16.rs:152-178 | the frontier gains exactly the children of the popped entry, in direction order |
| Day16.WalkExtend | src/day_16.rs:162-166 | extending a walk by a move adds that move's cost |
| Day16.PrefixCost | src/day_16.rs:162-169 | every move costs at least one and the heuristic of a prefix never overestimates |
| Day16.WalkCostLower | src/day_16.rs:99-126 | a walk costs at least its seed cost plus one per move |
| Day16.Recorded | src/day_16.rs:144 | reads the `visited` cost of a state, `None` if unrecorded |
| Day16.Record | src/day_16.rs:149 | `visited` mirrors the recorded costs with the new one |
| Day16.PoppedOptimal | src/day_16.rs:132-149 | no unrecorded walk is cheaper (with heuristic) than the popped entry |
| Day16.RecordedNotCheaper | src/day_16.rs:143-148 | a skipped entry is never cheaper than the recorded cost |
| Day16.Unreachable | src/day_16.rs:182-183 | an empty heap without a recorded exit state means no walk reaches the exit |
| Day16.AStarExit | src/day_16.rs:138-141 | the first popped exit entry has the least cost of any walk to the exit |
| Day16.AStarStep | src/day_16.rs:132-180 | one iteration: a returned cost is the least cost, else the loop invariants hold and the measure drops |
| Day16.AStar | src/day_16.rs:94-183 | result is the least walk cost to the exit, and -1 exactly when the exit is unreachable |
| Day16.Part1 | src/day_16.rs:90-184 | for the last `S` and `E`: least cost, -1 iff unreachable |
| Day16.ExploreStep | src/day_16.rs:205-254 | one iteration of part 2's Dijkstra keeps the invariants; a break leaves only dearer entries |
| Day16.ExitCostLeast | src/day_16.rs:210-232 | the recorded exit cost is at most any walk to the exit |
| Day16.ExitComplete | src/day_16.rs:210-232 | every walk at most as dear as the exit avoiding it earlier ends on a recorded state |
| Day16.ExploreDone | src/day_16.rs:205-256 | after the loop: found iff reachable, found is the least cost, recorded states are complete up to it |
| Day16.Explore | src/day_16.rs:191-256 | recorded costs are optimal; found iff reachable; found is the least cost; complete up to it |
| Day16.RootsMeaning | src/day_16.rs:258-274 | the initial pile holds exactly the exit states recorded at the least cost |
| Day16.InitialPile | src/day_16.rs:258-274 | builds that pile from `visited` |
| Day16.CandidatesExact | src/day_16.rs:289-316 | (corrected) off the start cell, the backtracking pushes exactly the back steps: the recorded state in the cell behind the current state, facing any direction, whose cost is the current one less the cost of the move into it |
| Day16.PushPredecessors | src/day_16.rs:289-316 | (corrected) the inner loops push exactly those |
| Day16.AsWrittenPushesNonPredecessor | src/day_16.rs:289-316 | (as written) a state above the exit that cannot move into it is pushed |
| Day16.CandidatesWeight | src/day_16.rs:299-303 | pushed entries score strictly less: the pile's weight shrinks (termination) |
| Day16.BehindOpen | src/day_16.rs:289-316 | the cell behind a recorded non-start state is open (no out-of-range index) |
| Day16.Mark | src/day_16.rs:283 | marks the popped cell as part of a best path and changes no other cell |
| Day16.CountMarked | src/day_16.rs:319 | counts exactly the marked cells |
| Day16.PopReaches | src/day_16.rs:278-317 | what was reachable from the pile is the popped entry or reachable from the new pile |
| Day16.BackPop | src/day_16.rs:278-317 | one pop keeps the backtracking invariants, both for the start cell and others |
| Day16.BackDone | src/day_16.rs:278-319 | empty pile: marked cells are exactly the cells reached back from the roots |
| Day16.Backtrack | src/day_16.rs:258-319 | count == number of cells reached back from the exit states at the least cost |
| Day16.Graft | src/day_16.rs:162-166 | a walk to a state of another walk followed by its rest is a walk; costs add |
| Day16.ForwardToExit | src/day_16.rs:289-316 | reversing a back path gives a walk to the exit at the least cost |
| Day16.BestAvoidsExit | src/day_16.rs:226-232 | a least-cost walk meets the exit only at its end |
| Day16.BestNoRestart | src/day_16.rs:284-287 | a least-cost walk never comes back to the start |
| Day16.BestPrefixRecorded | src/day_16.rs:218-224 | every state of a least-cost walk is recorded at the cost of its prefix |
| Day16.BestReached | src/day_16.rs:278-317 | every state of a least-cost walk is reached back from the roots |
| Day16.ClosureIsBest | src/day_16.rs:258-319 | the backtracked cells are exactly the cells of least-cost walks |
| Day16.Part2 | src/day_16.rs:186-320 | count == number of cells on some least-cost walk; requires the exit reachable (else `expect` panics) |
| Day16.RecordOptimal | src/day_16.rs:132-180 | the state of a least entry popped from the frontier, when first recorded, is recorded at its least cost from the start |
| Day16.ClosureSound | src/day_16.rs:278-317 | every cell reached back from the exit states lies on some least-cost walk |
| Day17.Shifted | src/day_17.rs:84-89 | A divided by 2 to the combo operand, truncated toward zero, never grows in magnitude or changes sign |
| Day17.Low3 | src/day_17.rs:105 | masking with `& 0b111` gives a value below 8 |
| Day17.XorNatBound | src/day_17.rs:96 | the xor of two k-bit patterns has k bits, so `^` stays within i64 |
| Day17.XorNatUnit | src/day_17.rs:96 | xor with 0 is the identity, with itself 0 |
| Day17.BitsRoundTrip | src/day_17.rs:96 | converting an i64 to its two's-complement bit pattern and back gives the same value |
| Day17.StepPointer | src/day_17.rs:42-55 | every opcode but a taken jnz advances the pointer by 2; jnz jumps to its literal |
| Day17.StepTargets | src/day_17.rs:84-162 | each instruction changes only its own target register or the output |
| Day17.StepOutput | src/day_17.rs:137-140 | a step appends at most one value, below 8 |
| Day17.RunOutput | src/day_17.rs:26-57 | the output of a halting run extends the initial one with values below 8 |
| Day17.RunStep | src/day_17.rs:29-56 | a run continues from where its step leads |
| Day17.Program.Write | src/day_17.rs:22-24 | appends the value to the output and changes nothing else |
| Day17.Program.Execute | src/day_17.rs:26-57 | the registers and output afterwards are those of the halting run of the program |
| Day17.LiteralOperand | src/day_17.rs:60-65 | the literal operand is the operand's own value; the source panics above 7 |
| Day17.ComboOperand | src/day_17.rs:67-75 | operands 0 to 3 stand for themselves and 4, 5, 6 for registers A, B, C; the source panics on 7 |
| Day17.Divide | src/day_17.rs:85-87 | the division shared by adv, bdv and cdv: A divided by 2 to the combo operand, truncated toward zero |
| Day17.ExecuteAdv | src/day_17.rs:84-89 | register A becomes the truncated quotient of A by 2 to the combo operand; nothing else changes |
| Day17.ExecuteBxl | src/day_17.rs:95-98 | register B becomes B xor the literal operand; nothing else changes |
| Day17.ExecuteBst | src/day_17.rs:104-107 | register B becomes the combo operand modulo 8; nothing else changes |
| Day17.ExecuteJnz | src/day_17.rs:115-120 | a jump to the literal operand exactly when A is not zero, otherwise no jump |
| Day17.ExecuteBxc | src/day_17.rs:127-130 | register B becomes B xor C, ignoring the operand; nothing else changes |
| Day17.ExecuteOut | src/day_17.rs:137-140 | the combo operand modulo 8 is appended to the output; nothing else changes |
| Day17.ExecuteBdv | src/day_17.rs:146-151 | register B becomes the truncated quotient of A by 2 to the combo operand; nothing else changes |
| Day17.ExecuteCdv | src/day_17.rs:157-162 | register C becomes the truncated quotient of A by 2 to the combo operand; nothing else changes |
| Day17.Part1 | src/day_17.rs:190-205 | the function returns the constant 42; the output it prints is the output of the halting run, every value below 8 |
| Day17.ExampleBst | src/day_17.rs:223-232 | with C = 9 the program 2,6 sets B to 1 |
| Day17.ExampleOut | src/day_17.rs:234-243 | A=10, program 5,0,5,1,5,4 outputs 0,1,2 |
| Day17.HalvingRun | src/day_17.rs:245-255 | from any A >= 0 the program 0,1,5,4,3,0 outputs the successive halves mod 8 and stops with A = 0 |
| Day17.ExampleHalving | src/day_17.rs:245-255 | A=2024 outputs 4,2,5,6,7,7,7,7,3,1,0 and leaves A = 0 |
| Day17.ExampleBxl | src/day_17.rs:257-266 | B=29, program 1,7 sets B to 26 |
| Day17.ExampleBxc | src/day_17.rs:268-277 | B=2024, C=43690, program 4,0 sets B to 44354 |
| Day17.HalvingPass | src/day_17.rs:245-255 | one pass of the program 0,1,5,4,3,0 halves A, outputs the new A modulo 8 and jumps back exactly when A is not zero |
| Day18.AdjacentShift | src/day_18.rs:67-69 | the four offsets reach exactly the cells at distance 1 |
| Day18.PrefixDistance | src/day_18.rs:82-83 | the distance to the exit drops by at most one per move (consistent heuristic) |
| Day18.WalkAtLeastDistance | src/day_18.rs:30-32 | a path has at least as many moves as the distance between its ends |
| Day18.MinStepsAtLeastDistance | src/day_18.rs:51-52 | a shortest path is never shorter than the initial heuristic (admissible) |
| Day18.PopMin | src/day_18.rs:54 | removes exactly one least entry in (f, g, row, col) order |
| Day18.ChildrenExact | src/day_18.rs:67-85 | pushed entries are exactly the open in-grid neighbours, cost g+1, f = g+1+distance |
| Day18.Expand | src/day_18.rs:67-86 | the neighbour loop pushes exactly those entries |
| Day18.Recorded | src/day_18.rs:59 | the cost recorded for a cell, if any |
| Day18.Record | src/day_18.rs:64 | records a cost and keeps all other cells |
| Day18.RecordedNotCheaper | src/day_18.rs:59-63 | a popped entry on a recorded cell is never cheaper than the record, so it is skipped |
| Day18.RecordOptimal | src/day_18.rs:59-64 | the first cost recorded for a cell is its shortest distance from the start |
| Day18.SearchExit | src/day_18.rs:55-57 | the first popped exit entry carries the shortest path length |
| Day18.Unreachable | src/day_18.rs:54-89 | an emptied frontier without the exit means no path exists |
| Day18.SearchStep | src/day_18.rs:54-87 | one pop keeps the search invariants and shrinks (unrecorded cells, frontier) |
| Day18.HasPath | src/day_18.rs:35-90 | Some(n) with n the least number of moves to the exit; None exactly when no path exists |
| Day18.Corrupted | src/day_18.rs:105-108 | cell (r, c) is corrupted iff one of the first k bytes fell on it |
| Day18.Part1 | src/day_18.rs:92-111 | result is the shortest path length on the grid after 12 / 1024 bytes, and at least 2 * (size - 1) |
| Day18.CorruptedMonotone | src/day_18.rs:129-136 | more fallen bytes never create a path |
| Day18.FillFrom | src/day_18.rs:134-135 | sets cell (row, col) at every time from `time` on, nothing else |
| Day18.BuildCube | src/day_18.rs:129-136 | cube[r, c, t] iff some byte i <= t fell on (r, c) |
| Day18.LayerIsCorrupted | src/day_18.rs:150 | the cube's layer at t is the grid after bytes 0..t |
| Day18.ResetVisited | src/day_18.rs:151 | clears every cell of `visited` |
| Day18.Probe | src/day_18.rs:150-152 | true iff a path exists at time pivot |
| Day18.PathsUpTo | src/day_18.rs:152-153 | a path at pivot means a path at every earlier time |
| Day18.SearchCut | src/day_18.rs:142-157 | the returned time is the first from `low` on without a path (or the end) |
| Day18.EarlierPaths | src/day_18.rs:140-142 | a path at part 1's time means a path at every earlier time |
| Day18.Part2 | src/day_18.rs:113-161 | the returned byte is the first (from part 1's time, and overall when part 1 has a path) whose fall cuts the corners apart |
| Day18.PoppedOptimal | src/day_18.rs:54-87 | the least entry of the frontier never overestimates any walk to an unrecorded cell, with the distance heuristic added |
| Day18.PathAtMonotone | src/day_18.rs:113-161 | if a path exists after some bytes have fallen, one exists after fewer |
| Day20.FindStartAndExit | src/day_20.rs:40-56 | returns the last `S` and the last `E` in row-major order; a map without either is outside its precondition (the source panics) |
| Day20.FirstFromStep | src/day_20.rs:78-93 | a neighbour the inner loop picks lies in the map, is no wall, is not the previous cell and is one step away |
| Day20.Advance | src/day_20.rs:76-94 | moves to the first of up, down, left, right that is in the map, no wall and not the previous cell; stays put when there is none |
| Day20.EndOnlyLast | src/day_20.rs:72 | the walk stops the first time it meets `end` |
| Day20.TrackUnique | src/day_20.rs:66-95 | the walk is deterministic: at most one track leads from `start` to `end` |
| Day20.TrackIsPath | src/day_20.rs:78-93 | consecutive cells of the track are one step apart |
| Day20.LengthsOfSnoc | src/day_20.rs:73 | labelling one more cell extends the labels by that cell |
| Day20.Label | src/day_20.rs:73 | writes one label and keeps every other cell |
| Day20.ComputePathLengths | src/day_20.rs:58-99 | a fresh array of the map's shape holding, for each cell of the track, its last position along it, and None elsewhere |
| Day20.LengthsOfMeaning | src/day_20.rs:72-97 | a cell is labelled iff it is on the track; its label is the last position at which it appears |
| Day20.DistinctTrackLabels | src/day_20.rs:72-97 | on a track without repeated cells every cell is labelled with its distance from the start |
| Day20.CheatCountLe | src/day_20.rs:109-138 | if every window kept at one threshold is kept at another, the count is no larger |
| Day20.CheatCountAntitone | src/day_20.rs:121-136 | raising the threshold never increases the count |
| Day20.PathParity | src/day_20.rs:72-94 | position i of a path has the chequerboard colour of its first cell shifted by i |
| Day20.PathChequered | src/day_20.rs:72-97 | every label has the colour of its cell, shifted by the start's colour |
| Day20.ChequeredKeeps | src/day_20.rs:117-136 | on a chequered grid no window's gap equals an odd t + 1, so thresholds t and t + 1 keep the same windows |
| Day20.TrackCountsSavings | src/day_20.rs:121-136 | for an even threshold t, gap > t counts the same cheats as saving >= t (gap > t + 1) |
| Day20.ComputePart1 | src/day_20.rs:101-139 | the number of (1, 3) and (3, 1) windows of the track's labels with labels at both ends, none in the middle and a gap above the threshold |
| Day20.CountsSavings | src/day_20.rs:121-136 | an even threshold's answer is also the answer for threshold + 1 |
| Day20.Part1 | src/day_20.rs:140-142 | the count at threshold 100, which equals the count at 101, i.e. the cheats saving at least 100 steps |
| Day20.ScanCell | src/day_20.rs:40-56 | after one more cell, the options hold the last `S` and the last `E` so far in row-major order |
| Day20.ScanRow | src/day_20.rs:40-56 | after one more row, the options hold the last `S` and the last `E` so far in row-major order |
| Day20.IsLastUnique | src/day_20.rs:40-56 | there is only one last cell of a kind in row-major order |
| Day21.Position | src/day_21.rs:56-84 | every key of a pad sits on a cell of the pad's rectangle other than the gap; other characters are outside its precondition (the source panics) |
| Day21.KeyAtPosition | src/day_21.rs:56-84 | the key is read back from its position |
| Day21.PositionInjective | src/day_21.rs:165-181 | different keys of a pad sit on different cells |
| Day21.PositionKeyAt | src/day_21.rs:56-84 | every cell of the pad but the gap holds a key |
| Day21.TwoLegsPrefix | src/day_21.rs:110-142 | a prefix of a two-leg route leaves the arm along the first leg, then along the second, then on its end |
| Day21.HorizontalPrefix | src/day_21.rs:111-126 | every prefix of the kept horizontal-first route misses the gap and the whole route ends on the target |
| Day21.VerticalPrefix | src/day_21.rs:128-142 | every prefix of the kept vertical-first route misses the gap and the whole route ends on the target |
| Day21.RoutesSound | src/day_21.rs:100-146 | every route held for a pair has length Manhattan distance + 1, ends with `A`, leads from the first key to the second and never stands on the gap |
| Day21.RoutesKeepSafe | src/day_21.rs:111-128 | an order whose prefixes all miss the gap is kept, so the only order left out is one crossing the gap |
| Day21.Routes | src/day_21.rs:108-142 | each pair of keys gets one or two routes |
| Day21.RoutesTyped | src/day_21.rs:105-142 | every route is made of `<>^vA` and holds at least the final `A` |
| Day21.HorizontalFirstPath | src/day_21.rs:111-126 | the loops push the column moves, then the row moves, then `A` |
| Day21.VerticalFirstPath | src/day_21.rs:128-142 | the loops push the row moves, then the column moves, then `A` |
| Day21.PairRoutes | src/day_21.rs:203-233 | the routes inserted for a pair are the kept orders, horizontal first |
| Day21.BuildRow | src/day_21.rs:94-148 | the inner loop adds exactly the pairs starting with `a`, each with its routes |
| Day21.BuildPadPaths | src/day_21.rs:88-152 | the table maps every pair of the pad's keys to its routes and holds nothing else (same for the directional builder at 184-240) |
| Day21.PadPathsUnique | src/day_21.rs:184-240 | any table with that property is the one `TableOf` gives |
| Day21.RecComputeMinimumPadSequence | src/day_21.rs:242-267 | appends to `results` every expansion of the remaining keys, prefixed with the path so far, in depth-first order |
| Day21.ComputeMinimumPadSequences | src/day_21.rs:269-275 | returns every expansion of the sequence from `A` |
| Day21.BranchesMember | src/day_21.rs:255-266 | a string is among one key's expansions iff it is one of the key's routes followed by an expansion of the rest |
| Day21.ExpansionsAreChoices | src/day_21.rs:242-275 | the expansions are exactly the concatenations that pick one table route per consecutive pair of keys, starting from `A` |
| Day21.ExpansionTyped | src/day_21.rs:255-266 | every expansion is made of directional keys and has at least one press per key |
| Day21.ExpansionsNonEmpty | src/day_21.rs:242-275 | on a pad's own table there is always at least one expansion |
| Day21.ExampleExpansion | src/day_21.rs:422-425 | `<A` expands to just `v<<A>>^A` on the directional pad |
| Day21.SplitInclusive | src/day_21.rs:332 | the chunks concatenate back to the keys and none is empty |
| Day21.SplitInclusiveChunks | src/day_21.rs:332 | no chunk holds an `A` before its end and every chunk but the last ends with `A` |
| Day21.MinOverIsMinimum | src/day_21.rs:336-343 | the minimum loop's result is at most every candidate and, below `usize::MAX`, equals one of them |
| Day21.ShortestAtLeast | src/day_21.rs:327-347 | no depth gives fewer presses than the keys themselves (short of `usize::MAX`) |
| Day21.ShortestSequence | src/day_21.rs:327-347 | the length at depth 0; above that the sum over the `A`-inclusive chunks of the cheapest expansion one level down |
| Day21.ParseCode | src/day_21.rs:277-298 | a line parses iff it is three digits and `A`; the code keeps the line and its value is below 1000 |
| Day21.ParseCodeValue | src/day_21.rs:287-294 | the value's three decimal digits are the line's digits, so the value is 100a + 10b + c |
| Day21.CodeShortest | src/day_21.rs:353-364 | the least shortest-sequence length over the code's numeric-pad expansions |
| Day21.BuildTables | src/day_21.rs:351-352 | the two tables are the builders' tables |
| Day21.ComputeDay21 | src/day_21.rs:349-367 | the sum over the codes of cheapest presses times value, on the built tables |
| Day21.Part1 | src/day_21.rs:368-370 | the complexity sum with two directional pads |
| Day21.Part2 | src/day_21.rs:372-374 | the complexity sum with twenty-five directional pads |
| Day21.RoutesBetweenSound | src/day_21.rs:100-146 | every route kept between two keys leads from the first to the second, ends with `A` and never stands on the gap |
| Day21.HorizontalMissesGap | src/day_21.rs:111-126 | when the horizontal-first order is kept, none of the cells it passes is the gap |
| Day21.VerticalMissesGap | src/day_21.rs:128-142 | when the vertical-first order is kept, none of the cells it passes is the gap |
| Day21.SingleKeyExpansion | src/day_21.rs:242-275 | one key typed after a previous key expands to exactly the table's routes between them |
| Day22.Prune | src/day_22.rs:42-44 | the result is below 2^24 |
| Day22.PruneIsRemainder | src/day_22.rs:42-44 | keeping the low 24 bits is the remainder modulo 2^24 |
| Day22.MixPruneExamples | src/day_22.rs:185-193 | mix(42, 15) = 37 and prune(100000000) = 16113920 |
| Day22.Round3 | src/day_22.rs:61-66 | the last round keeps the secret below 2^24 |
| Day22.NextSecret | src/day_22.rs:61-66 | every secret is below 2^24 |
| Day22.FirstRoundWide | src/day_22.rs:47-63 | the `<< 6` round loses nothing to the 32-bit wrap-around: it equals the same round on 64 bits |
| Day22.SecondRoundWide | src/day_22.rs:52-64 | the `>> 5` round equals the same round on 64 bits |
| Day22.ThirdRoundWide | src/day_22.rs:57-65 | the `<< 11` round equals the same round on 64 bits |
| Day22.TwoRoundsWide | src/day_22.rs:61-64 | the first two rounds together equal their 64-bit versions |
| Day22.TruncationHarmless | src/day_22.rs:47-66 | the u32 computation of the next secret equals the computation on 64 bits, where no shift drops a bit |
| Day22.ChainFrom123 | src/day_22.rs:201-211 | the ten successive secrets from 123 |
| Day22.IterateFrom123 | src/day_22.rs:201-211 | ten steps from 123 give 5908254 |
| Day22.SecretAfterSteps | src/day_22.rs:77-80 | the inner loop yields the secret after 2000 steps |
| Day22.Part1 | src/day_22.rs:72-84 | the sum over the seeds of their 2000th secrets |
| Day22.SequenceToNumber | src/day_22.rs:87-94 | four changes in -9..9 give a code below 19^4 = 130321 |
| Day22.NumberToSequence | src/day_22.rs:87-94 | decoding a code below 19^4 gives four changes in -9..9 |
| Day22.NumberToSequenceInverse | src/day_22.rs:87-94 | decoding the code of four changes gives them back |
| Day22.SequenceToNumberInverse | src/day_22.rs:87-106 | every number below `array_size` is the code of its decoding, so the code is onto 0..130320 |
| Day22.SequenceToNumberInjective | src/day_22.rs:87-94 | different changes get different codes |
| Day22.SequenceToNumberExample | src/day_22.rs:87-94 | (9, 9, 9, 9) gives 130320 and (-9, -9, -9, -9) gives 0 |
| Day22.LastDigit | src/day_22.rs:97-99 | the price is a digit 0..9 |
| Day22.Change | src/day_22.rs:126-134 | a price change is in -9..9 |
| Day22.Windows | src/day_22.rs:130-137 | one code per window |
| Day22.PricesAfter | src/day_22.rs:131-134 | one price per window |
| Day22.FirstPriceNone | src/day_22.rs:116-143 | nothing is remembered for a code exactly when no window has it |
| Day22.FirstPriceAt | src/day_22.rs:116-143 | the remembered price is the one after the earliest window with the code |
| Day22.FirstPriceSnoc | src/day_22.rs:130-143 | one more window changes the remembered price only for a code not seen before and equal to the window's |
| Day22.GainAt | src/day_22.rs:139-143 | a buyer adds for a code the price right after that code's first window |
| Day22.GainNone | src/day_22.rs:139-143 | a buyer adds nothing for a code none of its windows has |
| Day22.Start | src/day_22.rs:117-128 | the values computed before the loop are the secret and price after three steps and the first three changes |
| Day22.Advance | src/day_22.rs:131-153 | one iteration computes the code and the price of window i and the state before window i + 1 |
| Day22.Record | src/day_22.rs:139-143 | updating `map` and `sums` keeps both equal to the first-occurrence prices of the windows seen so far |
| Day22.AddBuyer | src/day_22.rs:116-153 | each code's sum grows by exactly the buyer's first-occurrence price for it |
| Day22.Sums | src/day_22.rs:109-165 | each code's sum is its total over all buyers |
| Day22.Max | src/day_22.rs:166-168 | the result is at least every sum and equal to one of them |
| Day22.Part2 | src/day_22.rs:101-169 | the answer is the largest total over all codes, and some code reaches it |
| Day23.AsU32 | src/day_23.rs:88-90 | a lower-case name codes to a number below 676 |
| Day23.FromU32 | src/day_23.rs:92-96 | a code below 676 decodes to a lower-case name |
| Day23.FromAsU32 | src/day_23.rs:88-96 | decoding the code of a name gives the name |
| Day23.AsFromU32 | src/day_23.rs:88-96 | encoding the name of a code gives the code, so from_u32 inverts as_u32 on 0..675 |
| Day23.AsU32Ordered | src/day_23.rs:40-41 | the derived order of identifiers is the order of their codes |
| Day23.Name | src/day_23.rs:44-48 | the displayed name is the two letters |
| Day23.StartsWithTRange | src/day_23.rs:112-113 | a code's name starts with 't' exactly for the codes 494..519 |
| Day23.Neighbors | src/day_23.rs:117 | the neighbours are the nodes joined to the node by an edge in either direction |
| Day23.EdgeList | src/day_23.rs:100 | one edge per connection, joining the two codes |
| Day23.NodeCount | src/day_23.rs:100 | the node count exceeds every end and is one more than some end (or zero without edges) |
| Day23.BuildGraph | src/day_23.rs:99-101 | the graph's edges join nodes of the graph |
| Day23.NodeNames | src/day_23.rs:99-112 | decoding the node index of an edge's end recovers the connection's name, and the ends are adjacent |
| Day23.TrianglesMembers | src/day_23.rs:120-133 | a triple is counted exactly when it is a triangle in increasing order with a member starting with 't' |
| Day23.ViaAdd | src/day_23.rs:126-134 | one more common neighbour adds at most its own triangle, which is new |
| Day23.ViaCommon | src/day_23.rs:125-127 | the common neighbours of the pair close all the triangles through the pair |
| Day23.AtAdd | src/day_23.rs:119-136 | one more neighbour adds the triangles through it and no others |
| Day23.AtNotAbove | src/day_23.rs:120 | a neighbour not above the node closes no counted triangle |
| Day23.BelowAdd | src/day_23.rs:108-141 | the triangles with smallest node below n + 1 are those below n plus those at n, disjointly |
| Day23.CountCommon | src/day_23.rs:125-135 | the inner loop counts the counted triangles through the node and the neighbour |
| Day23.CountAt | src/day_23.rs:111-139 | the per-node count is the number of counted triangles whose smallest node it is |
| Day23.CountTriangles | src/day_23.rs:108-141 | the sum over the nodes is the number of counted triangles, each once |
| Day23.Part1 | src/day_23.rs:103-142 | the answer is the number of counted triangles of the connections' graph |
| Day23.DegreeCounts | src/day_23.rs:159-164 | the pivot key counts the node's neighbours among the candidates |
| Day23.CandidateDegreeIsCount | src/day_23.rs:159-164 | the pivot key is the size of the node's neighbourhood within the candidates |
| Day23.MaxDegreeExists | src/day_23.rs:156-166 | a non-empty set has an element whose key is largest |
| Day23.PivotExists | src/day_23.rs:156-166 | when candidates or excluded nodes remain, a pivot from their union with the largest key exists |
| Day23.AdjacentSymmetric | src/day_23.rs:99-101 | the graph is undirected |
| Day23.NotOwnNeighbour | src/day_23.rs:99-101 | without a self-connection no node is its own neighbour |
| Day23.SplitMove | src/day_23.rs:196-197 | moving a candidate to the excluded nodes keeps the two a partition of the common neighbours |
| Day23.SplitBranch | src/day_23.rs:175-194 | the branch on a candidate is a call on a larger clique whose candidates and excluded nodes split its common neighbours, with fewer candidates |
| Day23.PivotMissesNoClique | src/day_23.rs:171-174 | branching only on non-neighbours of the pivot loses no maximal clique |
| Day23.OwedByBranch | src/day_23.rs:175-194 | a maximal clique containing the branch node is owed by the branch's call |
| Day23.ReportedGrows | src/day_23.rs:149-152 | pushing more cliques keeps earlier reports |
| Day23.Extends | src/day_23.rs:149-194 | reports of a call after earlier reports are all maximal and keep the prefix |
| Day23.ProgressStep | src/day_23.rs:171-198 | after a branch, every owed maximal clique is reported or still owed by a branch to come |
| Day23.ProgressDone | src/day_23.rs:171-198 | after the last branch every owed maximal clique is reported |
| Day23.BronKerbosch | src/day_23.rs:144-199 | a call pushes only maximal cliques, keeps what was pushed before, and pushes every maximal clique through the current clique drawn from the candidates and avoiding the excluded nodes; a clique is pushed when both sets are empty |
| Day23.FindAllMaximalCliques | src/day_23.rs:201-216 | the list holds exactly the maximal cliques of the graph |
| Day23.ExtendToMaximal | src/day_23.rs:201-216 | every clique lies inside a maximal clique |
| Day23.Largest | src/day_23.rs:218-224 | the result exists exactly for a non-empty list, is in it and is at least as large as every element |
| Day23.FindMaximalClique | src/day_23.rs:218-231 | a clique is always found, and it is maximal and as large as any clique of the graph |
| Day23.AscendingSorted | src/day_23.rs:236 | the codes are listed once each, strictly increasing, exactly those of the set |
| Day23.Names | src/day_23.rs:235-237 | one displayed name per code |
| Day23.JoinLayout | src/day_23.rs:238 | joined two-letter names have name i at 3i and a comma after every name but the last |
| Day23.PasswordSorted | src/day_23.rs:233-238 | the password lists every member of the clique, in increasing order of identifiers |
| Day23.CliquePassword | src/day_23.rs:230-238 | the answer is the password of a largest clique |
| Day23.BuildGraphLoopless | src/day_23.rs:99-101 | a graph from connections without a self-connection has no loops |
| Day23.Part2 | src/day_23.rs:226-239 | the answer is the password of a largest clique of the connections' graph |
| Day24.CharToValue | src/day_24.rs:38-47 | a digit or lower-case letter maps to a value below 36; any other character panics |
| Day24.ValueToChar | src/day_24.rs:50-58 | a value below 36 maps to a digit or lower-case letter; larger values panic |
| Day24.CharRoundTrip | src/day_24.rs:38-58 | turning a wire character into its value and back gives the character |
| Day24.ValueRoundTrip | src/day_24.rs:38-58 | turning a value below 36 into a character and back gives the value |
| Day24.CharValueOrder | src/day_24.rs:38-47 | exactly the digits take values below 10, and characters are ordered like their values |
| Day24.FromChars | src/day_24.rs:61-67 | the code of three wire characters is below 36 * 36 * 36 |
| Day24.Display | src/day_24.rs:86-93 | a code displays as three wire characters |
| Day24.Digits | src/day_24.rs:86-93 | the three digits Display extracts from a base-36 number are its digits |
| Day24.DisplayFromChars | src/day_24.rs:61-93 | displaying the wire built from three characters gives those characters back |
| Day24.FromCharsDisplay | src/day_24.rs:61-93 | re-encoding the displayed name of a code below 46656 gives the code |
| Day24.DisplayInjective | src/day_24.rs:86-93 | distinct codes below 46656 display as distinct names |
| Day24.FromUsize | src/day_24.rs:74-78 | a value below 46656 is accepted, and its displayed name encodes back to it |
| Day24.AllNamesUnique | src/day_24.rs:469-506 | all 46656 codes have pairwise distinct names, and each name encodes back to its code |
| Day24.DigitOrder | src/day_24.rs:61-67 | base-36 numbers compare like their digits, most significant first |
| Day24.ValueCharOrder | src/day_24.rs:50-58 | the characters of two values compare like the values |
| Day24.CodeOrderIsNameOrder | src/day_24.rs:34-67 | the derived order of wire names, on their codes, is the lexicographic order of the names |
| Day24.IsOutputIffZ | src/day_24.rs:80-83 | a wire is an output exactly when its name starts with 'z' |
| Day24.ApplyCommutative | src/day_24.rs:318-322 | AND, OR and XOR are commutative |
| Day24.EntryIndexKeys | src/day_24.rs:257-263 | the map holds exactly the initial wires after the first loop |
| Day24.EntryIndexAt | src/day_24.rs:257-263 | with strictly increasing keys each initial wire maps to its own input node |
| Day24.GateIndexKeys | src/day_24.rs:267-270 | the second loop adds exactly the gates' output wires to the map |
| Day24.GateIndexAt | src/day_24.rs:267-270 | with distinct outputs, a gate's output wire maps to that gate's node |
| Day24.GateIndexOther | src/day_24.rs:267-270 | a wire no gate drives keeps its entry |
| Day24.IndexBound | src/day_24.rs:254-270 | the map only holds node indices, and holds every gate's output wire |
| Day24.IndexKeys | src/day_24.rs:254-270 | a wire is in the map exactly when it has an initial value or a gate drives it |
| Day24.IndexOfGate | src/day_24.rs:267-270 | a gate output maps to the gate's node when outputs are distinct |
| Day24.IndexOfInput | src/day_24.rs:257-270 | an initial wire that no gate drives maps to its input node |
| Day24.AddNodes | src/day_24.rs:254-270 | the node loops produce the input nodes in key order, then the gate nodes in input order, and the wire map |
| Day24.AddEdges | src/day_24.rs:272-282 | the edge loop adds, for each gate, edges from its output wire's node to its inputs' nodes |
| Day24.BuildGraph | src/day_24.rs:251-298 | the graph built is the graph of the problem |
| Day24.EdgesAfterAt | src/day_24.rs:272-282 | after the first n gates, exactly those gates' nodes have their two input edges |
| Day24.EdgesOfGraph | src/day_24.rs:272-282 | with distinct outputs every gate node has exactly the edges to its two inputs, and input nodes have none |
| Day24.NodeOfGate | src/day_24.rs:265-270 | gate j's node follows the input nodes, and its sort key is its output wire |
| Day24.RankIrrelevant | src/day_24.rs:304-335 | the value of a node does not depend on the ranking used to bound the recursion |
| Day24.ResolveInput | src/day_24.rs:311-312 | an input node evaluates to its initial value |
| Day24.ResolveGate | src/day_24.rs:313-325 | a gate's node evaluates to its operation on the values of its two inputs, whatever the neighbour order |
| Day24.OneLevelRanked | src/day_24.rs:304-335 | a circuit whose gates read only initial wires is ranked by putting the inputs below the gates |
| Day24.OutputsBelowMembers | src/day_24.rs:378-384 | the filter keeps exactly the output gate nodes, once each, in node order |
| Day24.AllGatesOutput | src/day_24.rs:378-384 | when every gate drives a 'z' wire the outputs are all the gate nodes |
| Day24.InsertSorted | src/day_24.rs:386-389 | inserting a new node keeps the descending order and adds just that node |
| Day24.Prepend | src/day_24.rs:386-389 | a node with a key at least every other key can go first |
| Day24.SortDescendingSorted | src/day_24.rs:386-389 | the sort gives the same nodes, without repeats, by descending output wire |
| Day24.SortedUnique | src/day_24.rs:386-389 | with distinct keys two descending orders of the same nodes are equal, so the unstable sort is determined |
| Day24.SortThree | src/day_24.rs:386-389 | three nodes with increasing wires sort into reverse order |
| Day24.SortedOutputs | src/day_24.rs:378-389 | every sorted output is an output gate node |
| Day24.SortedOutputsFacts | src/day_24.rs:378-389 | the sorted outputs are the output gate nodes, each once, by descending wire |
| Day24.Values | src/day_24.rs:391-393 | one value per output, the value of its node |
| Day24.ValuesThree | src/day_24.rs:391-393 | the values of three nodes |
| Day24.Fold | src/day_24.rs:395 | the i64 accumulator's bit pattern stays below 2^64 |
| Day24.FoldIsBinary | src/day_24.rs:395 | the accumulator holds the low 64 bits of the number the values spell, the first value the most significant |
| Day24.BinaryBound | src/day_24.rs:395 | n values spell a number below 2^n |
| Day24.BinaryBit | src/day_24.rs:395 | bit i of that number is the i-th value from the end |
| Day24.SmallFold | src/day_24.rs:395 | with at most 63 values the i64 result is that number, unwrapped and non-negative |
| Day24.AnswerBits | src/day_24.rs:378-395 | with at most 63 outputs bit i of the answer is the value of the i-th output from the end, the smallest wire giving bit 0 |
| Day24.AnswerWraps | src/day_24.rs:395 | in general the answer is the low 64 bits of that number read as an i64 |
| Day24.AnswerOrder | src/day_24.rs:386-389 | with distinct outputs the wires strictly decrease along the sorted outputs |
| Day24.Part1 | src/day_24.rs:369-396 | the answer is the fold of the values of the output gates in descending wire order, for any ranking of the circuit |
| Day24.GatesOfThree | src/day_24.rs:311-325 | a gate reading input nodes j and j + 3 takes its operation of their initial values |
| Day24.AnswerOfThree | src/day_24.rs:378-395 | three output gates valued 0, 0, 1 in increasing wire order give 4 |
| Day24.ShortExampleNames | src/day_24.rs:408-417 | the codes of the short example are those of its names |
| Day24.ShortExampleWellFormed | src/day_24.rs:408-417 | the short example is sorted, has distinct outputs and defined inputs, and is ranked |
| Day24.ShortGateValues | src/day_24.rs:408-417 | its gates evaluate to 0, 0 and 1 |
| Day24.ShortExampleAnswer | src/day_24.rs:408-417 | the short example gives 4 |
| Day25.HeightStep | src/day_25.rs:40-46 | counting one more row adds one to a column exactly where that row has '#' |
| Day25.AddRow | src/day_25.rs:41-45 | the inner loop adds one to each column where the row has '#' and leaves the others |
| Day25.CountHeights | src/day_25.rs:40-46 | the loops leave in each column the number of '#' among the first five rows |
| Day25.KeyOfFacts | src/day_25.rs:24-46 | a key is parsed exactly from a block topped by "....."; its five heights are in 0..5, count the '#' of each column over the next five rows, and are all 0 with a single row |
| Day25.LockOfFacts | src/day_25.rs:53-72 | a lock is parsed exactly from a block topped by "#####"; its five heights are in 0..5 and count the '#' of each column over the next five rows |
| Day25.ParseKey | src/day_25.rs:24-51 | the key parser returns the key of the block, or nothing for another top row |
| Day25.ParseLock | src/day_25.rs:53-76 | the lock parser returns the lock of the block, or nothing for another top row |
| Day25.Items | src/day_25.rs:78-86 | one item for each leading block that is a key or a lock |
| Day25.ItemsAt | src/day_25.rs:80-86 | item j is the key of block j when it is topped by ".....", and its lock when topped by "#####" |
| Day25.KeysLocksPartition | src/day_25.rs:91-97 | the keys and the locks together are the items' heights, each once |
| Day25.SplitItems | src/day_25.rs:87-99 | the keys and the locks in the order they were parsed |
| Day25.ParseInput | src/day_25.rs:78-102 | the problem holds the keys and locks of the leading key and lock blocks, in order |
| Day25.ProblemOf | src/day_25.rs:78-102 | every parsed key and lock has five heights |
| Day25.FitsIffColumns | src/day_25.rs:115-121 | a key fits a lock exactly when every column sum is at most 5, and the test is symmetric |
| Day25.LocksFitting | src/day_25.rs:112-122 | a key fits at most all the locks |
| Day25.LocksFittingExtremes | src/day_25.rs:112-122 | the count is 0 exactly when the key fits no lock, and the number of locks exactly when it fits all |
| Day25.FitCount | src/day_25.rs:108-124 | there are at most keys times locks fitting pairs |
| Day25.FitCountByEither | src/day_25.rs:108-124 | counting the pairs key by key gives the same as counting them lock by lock |
| Day25.FitCountExtremes | src/day_25.rs:108-124 | the answer is 0 exactly when no pair fits, and keys times locks exactly when every pair fits |
| Day25.Part1 | src/day_25.rs:104-125 | the answer is the number of fitting pairs of the parsed keys and locks, at most keys times locks |
| Day25.HeightsRange | src/day_25.rs:40-46 | every column height is at most five |
| Day25.ByLockFirstKey | src/day_25.rs:108-124 | counting lock by lock, the first key contributes exactly the locks it fits |
| Day25Example.HeightOfFive | src/day_25.rs:40-46 | a height is the number of '#' in the column's five rows, row by row |
| Day25Example.HeightsOfBlock | src/day_25.rs:40-46 | heights given column by column are the heights of the block |
| Day25Example.FirstLock | src/day_25.rs:135-141 | the first block is the lock 0,5,3,4,3 |
| Day25Example.SecondLock | src/day_25.rs:143-149 | the second block is the lock 1,2,0,5,3 |
| Day25Example.FirstKey | src/day_25.rs:151-157 | the third block is the key 5,0,2,1,3 |
| Day25Example.SecondKey | src/day_25.rs:159-165 | the fourth block is the key 4,3,4,0,2 |
| Day25Example.ThirdKey | src/day_25.rs:167-173 | the fifth block is the key 3,0,2,0,1 |
| Day25Example.ExampleItems | src/day_25.rs:135-173 | all five blocks are accepted, as two locks then three keys |
| Day25Example.ExampleProblem | src/day_25.rs:135-173 | the example's keys and locks |
| Day25Example.ExampleAnswer | src/day_25.rs:181-184 | the example gives 3 |

## Specification functions

These functions model a source function directly but carry no contract of their own, so the table above has no row for them. The lemmas named after each one state what it means.

- Day01.TotalDistance (src/day_01.rs:19-35): Day01.SortAscending, Day01.TotalDistanceColumnOrder, Day01.LineOrderIrrelevant and Day01.ExamplePart1.
- Day01.Similarity (src/day_01.rs:37-60): Day01.SimilarityScore, Day01.SimilarityConsRight, Day01.SimilaritySymmetric and Day01.ExamplePart2.
- Day03.Part1 (src/day_03.rs:74-78): Day03.ParseInput, Day03.ParseInputLeadingMul, Day03.ParseInputAfterSkip, Day03.ExamplePart1Single and Day03.ExamplePart1Skip.
- Day07.IsValidCase (src/day_07.rs:46-51): Day07.ValidCaseAsWritten, Day07.ZeroFirstOperandMissed and the nine example lemmas from Day07.ExampleCase190 to Day07.ExampleCase292.
- Day07.IsValidCaseCorrected (src/day_07.rs:46-51): Day07.ValidCaseMeaning.
- Day07.CalibrationTotal (src/day_07.rs:67-84): Day07.PartTwoAtLeastPartOne.
- Day11.Split (src/day_11.rs:21-31): Day11.SplitMeaning and Day11.ExampleSplits.
- Day11.Blink (src/day_11.rs:33-47): Day11.BlinkAppend, Day11.BlinkLength and Day11.ExampleBlink.
- Day13.Tokens (src/day_13.rs:133-135): Day13.TokensOfSolution.
- Day13.TotalTokens (src/day_13.rs:130-137): Day13.TotalTokensAppend and Day13.ExamplePart1.
- Day13.Part2 (src/day_13.rs:139-147): Day13.PartTwoMachines and Day13.ExamplePart2.
- Day17.Combo (src/day_17.rs:67-75): Day17.ComboOperand.
- Day17.Step (src/day_17.rs:33-55): Day17.StepPointer, Day17.StepTargets and Day17.StepOutput.
- Day17.Run (src/day_17.rs:26-57): Day17.RunOutput, Day17.RunStep and Day17.Program.Execute.
- Day20.Part2 (src/day_20.rs:144-146): a placeholder returning 42, listed under "## Left out".
- Day21.Expansions (src/day_21.rs:242-275): Day21.RecComputeMinimumPadSequence, Day21.BranchesMember, Day21.ExpansionsAreChoices and Day21.ExampleExpansion.
- Day21.Shortest (src/day_21.rs:327-347): Day21.ShortestSequence and Day21.ShortestAtLeast.
- Day22.Mix (src/day_22.rs:37-39): Day22.MixPruneExamples.
- Day22.Round1 and Day22.Round2 (src/day_22.rs:61-66): Day22.FirstRoundWide, Day22.SecondRoundWide, Day22.TwoRoundsWide and Day22.TruncationHarmless.
- Day23.Join (src/day_23.rs:238): Day23.JoinLayout and Day23.PasswordSorted.
- Day24.IsOutput (src/day_24.rs:80-83): Day24.IsOutputIffZ.
- Day24.Resolve (src/day_24.rs:304-335): Day24.ResolveInput, Day24.ResolveGate and Day24.RankIrrelevant.

## Left out

- Input parsing: every `parse_input_data` built on `nom` is replaced by the parsed values, except for the `mul(a,b)` scanner of day 3. Where the source uses `expect("Failed to parse input data")`, the model assumes well-formed input.
- Part-2 stubs: `day_03_part_2`, `day_04_part_2`, `day_06_part_2`, `day_08_part_2`, `day_09_part_2`, `day_10_part_2`, `day_12_part_2`, `day_15_part_2`, `day_17_part_2`, `day_20_part_2`, `day_24_part_2` and `day_25_part_2` return the constant 42. There is nothing to model and their tests expect 42.
- Part 2 of day 11: `day_11_part_2` blinks 75 times with the same code as part 1 (modelled by `BlinkTimes`) and prints each length. Its test expects 42, which the brute force cannot return, and the printing is I/O.
- `println!`/`print!` output and the `print_map`/`print_presence_map` helpers are I/O and are left out.
- Parallel iteration with rayon (`par_iter`, `par_chunks`, `par_bridge`) becomes a sequential sum. Addition does not depend on the grouping.
- Test examples that the verifier cannot evaluate at reasonable cost are left out. These are the whole-input examples of days 3 to 12, 14 to 16, 18, 20 to 23 and the long one of day 24, the other tests of day 21, and the two day-3 tests on texts with two instructions: `parse_input_data("xmul(123,456)%&mul(123,456)(")` and `day_03_part_1("xmul(2,4)%&mul(3,7)")`. For the second of these, Day03.ExamplePart1Tail proves the half after `xmul(2,4)`, and Day03.ParseInputJunkThenMul proves that skipping the `x` and reading `mul(2,4)` prepends (2, 4) to it. Example lemmas cover the rest:
  - day 1: both answers of its example;
  - day 2: both answers of its example, with one lemma for each report that part 2 decides;
  - day 3: every `mul_number` and `parse_mul` test, the one-instruction `parse_input_data` test and the texts `mul(2,4)` and `xmul(2,4)` of `day_03_part_1`;
  - day 4: the four digit grids of the part-1 test;
  - day 7: each of the nine equations, with and without concatenation;
  - day 11: the splits and one blink;
  - day 13: both answers;
  - day 14: two robots;
  - day 17: five programs;
  - day 21: the expansion of `<A`;
  - day 22: the `mix` and `prune` tests, the ten secrets after 123, and two codes of `sequence_to_number`;
  - day 24: the short example;
  - day 25: its example.
- Day01.SimilarityScore: requires every location in [0, 100000). The source's guard `> 100_000` lets 100000 through, and then indexing the 100000-entry table panics. The i64 sums are unbounded integers.
- Day02: `is_report_safe` panics on reports of fewer than two levels; the model requires at least two levels where the source calls it.
- Day03: the numbers are u16, built by a fold with `wrapping_sub`. With at most three digits they stay below 1000, so no wrap-around happens and the model uses naturals. The characters are treated as ASCII.
- Day04: the commented-out grid experiments in `day_04_part_1` are not code and are not modelled.
- Day05: pages are u8 and `in_degree` is a u8 counter. The model uses naturals; a page with more than 255 incoming rules would wrap in the source.
- Day05.Part2: requires distinct pages in every update, and an order of each invalid update's pages that respects the rules (Sortable). Without such an order the source panics ("A cycle is present"), and it is not defined for repeated pages.
- Day05.KahnAlgorithm: requires a topological order as a ghost witness that the rules restricted to the pages are acyclic, which the source assumes.
- Day06.GuardWalk: takes fuel, an upper bound on the number of iterations. The source loops forever when the guard walks in a cycle, and the model reports that case as None when the fuel runs out.
- Day07: WellFormed and IsValidCase require the operands after the first to be positive. The source's `current % *last` and `last.ilog10()` panic on a zero operand, but only when the branches before them fail, so some equations with a zero operand run in the source and are outside the model. CalibrationTotal uses the corrected search (see Findings). The u64 values are unbounded naturals, so an overflow of the target sum or of `10_u64.pow` is not modelled.
- Day09: the digits are u8 and the ids usize; the model uses naturals. Day09.Part1 and Day09.Compact require a file block or a disk of exactly one slot, which is exactly when the source's usize arithmetic does not underflow. An empty disk underflows at `memory.len() - 1` (src/day_09.rs:38). A disk of two or more free slots and no file underflows at `end -= 1` (src/day_09.rs:50), after the inner loop meets `i` at index 0. A disk such as `01`, one free slot, is accepted, and its checksum is 0.
- Day11: the u64 stones are unbounded naturals. The product `n * 2024` (src/day_11.rs:44) overflows in the source for a stone above u64::MAX / 2024: a debug build panics and a release build wraps around. Neither is modelled.
- Day13: the i64 products in `clicks_per_button` are unbounded integers. The model requires a non-zero determinant and a non-zero `b_x` (Divisible), without which the source divides by zero. Negative click counts are accepted, as in the source.
- Day14.Part2: requires a ghost horizon at which no two robots overlap, because the source's `loop` never ends otherwise. The source relies on the assumption it states in a comment.
- Day14: the i64 coordinates are unbounded integers.
- Day15.Part1: requires exactly one robot cell. This is exactly the condition under which the source does not panic: it clears the first robot cell and then calls `print_map`, which panics on any robot cell still on the map, before the first move.
- Day16: `current_score - 1001` on usize is modelled as integer subtraction: a negative value never matches a recorded cost, where a debug build would panic. The binary heap is modelled as an unordered sequence from which a least entry is popped; ties between equal entries do not change the result. The as-written neighbours that fall outside the grid become huge usize values and would panic on indexing. The corrected predecessor rule never reaches them.
- Day17: panics on operand 7 and on unknown opcodes are modelled as preconditions of the methods, and as a Panicked outcome of Run. The 100_000_000-iteration cap of `execute` is the fuel of Run. Day17.PowOk follows a debug build. There, `2_i64.pow(e)` panics on overflow for every exponent `e` of 63 or more, and the model calls all of those a panic. In a release build, `e` = 63 wraps to i64::MIN and the division goes through. An `e` of 64 or more gives 0, and the division by zero then panics. The release outcome at `e` = 63 is not modelled.
- Day18: the answer of part 2 is the returned pair, not the `format!`ted string. Day18.HasPath requires a `visited` array of the grid's size with every entry None. Both callers provide one; stale entries could make the source skip cells.
- Day20.ComputePathLengths: requires the walk from the start to reach the end (IsTrack), because the source loops forever otherwise.
- Day20: usize arithmetic is modelled on naturals.
- Day21: the `#[cached]` memoisation is left out, and the functions are modelled as pure. The usize sums and products are unbounded. ParseCode models one line of the `separated_list1` split. `results` is threaded as a value instead of a `&mut Vec`. The specification functions look routes up in the table passed in, and find none off the table, where the source panics.
- Day22: the u16 sums are modelled as unbounded integers. Day22.SequenceToNumber requires changes in -9..9, which every price change satisfies; outside that range the source's casts would wrap. The results are unbounded integers instead of i64.
- Day23: ValidInput requires lower-case names. The parser also admits upper-case letters, which `as_u32` would code wrongly.
- Day23: petgraph's neighbour lists are modelled as sets. A connection listed twice would count its triangles twice in the source but once here.
- Day23.FromU32: is applied only to node indices, which are codes below 676.
- Day23.Part2: requires that no connection joins a name to itself. Such a loop would make a node its own neighbour. The HashSet iteration order is modelled as a nondeterministic choice.
- Day24: `#[cached]` and the Blake2 problem hash that keys the cache are left out, and the recursion is modelled as a pure function. The Debug formatting is left out. Wire codes are naturals, which a u32 holds, since every parsed code is below 46656.
- Day24.Ranked: the model requires that every edge descends a ranking of the nodes, and that every gate node has two edges. The source recurses without end on a cycle. It panics on a gate node without exactly two neighbours only when it evaluates that node, so a circuit with a malformed gate that is never evaluated runs in the source but is outside the model.
- Day25: the nom text parser below the block level is left out. The input is given as blocks, each a top row plus the rows up to the blank line. The u8 heights are naturals; heights are at most 5 and their sums at most 10, so they cannot overflow. The `_ => panic!` arm cannot be reached, since the parser only tags items 0 or 1.

## Findings

| source | as written | input that shows it | evidently intended | confidence | as-written member | corrected member |
|---|---|---|---|---|---|---|
| src/day_07.rs:23 | the subtraction is undone only when `current > *last` | the equation `5: 0 5`: 0 + 5 = 5, but `5 > 5` fails, division leads to 1, and part 1 rejects it | undo a subtraction whenever `current >= *last`, so a first number 0 is handled | not executed | Day07.ZeroFirstOperandMissed | Day07.ValidCaseMeaning |
| src/day_08.rs:86-101 | `(col_a, row_a) = window[0]` binds the row to `col_a`, so the bounds test compares the row with `nb_cols` and the column with `nb_rows` | the one-row map `aa.`: the antinode (0, 2) is rejected and the answer is 0 instead of 1; on a 2 by 3 map the off-map row 2 passes the test and the indexing panics | compare rows with the number of rows and columns with the number of columns | not executed | Day08.SwappedCheckMissesAntinode | Day08.Part1 |
| src/day_16.rs:289-316 | the backtracking pushes a recorded state in any of the four neighbouring cells, with any facing, whose cost is one or 1001 below the current one | the maze `##########`, `#S...#####`, `##.#.#####`, `##.#....##`, `##.....E##`, `##########`: the states (3, 5) to (3, 7) facing east cost one less than the cells below them and lie on no best path, yet they are pushed; by this rule a release build counts 17 tiles instead of 14, while a debug build first panics at the usize `current_score - 1001`. Day16.AsWrittenPushesNonPredecessor proves the step at (3, 7) only, not the count | push only the states in the cell behind the current state (opposite its facing), with the same facing at one less or another facing at 1001 less, since every move steps one cell forward in the direction it ends facing | not executed | Day16.AsWrittenPushesNonPredecessor | Day16.Backtrack |
