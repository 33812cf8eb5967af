# Advent of Code 2024 solvers, modelled in Dafny

This project models the puzzle solvers of an Advent of Code 2024 repository
written in Python: days 1 to 12, 14 to 22, 24 and 25. Each day is one module
(`Day01` … `Day25`, one file each). Every module takes the input already
parsed and models that day's solver logic. The code's own form is kept:
- loops that update variables become methods with loop invariants;
- in-place updates of state that outlives one call become arrays or classes with `modifies` frames (the day 5 updates, the day 9 disk, the day 12 flood fill, the day 14 robots, the day 15 warehouse, the day 16 graph);
- collections a single loop updates in place (day 6's copied `walls`, day 18's `closed` and `walls`, day 25's `sizes`, and the sets and lists the other days build) become local variables that the loop reassigns;
- day 22's `add_banana_counts`, which updates its caller's `counts` dictionary, returns the new map instead, so the aliasing is not modelled;
- pure recursion becomes functions;
- every method is proved against a specification function, with lemmas for the puzzle's properties.

Three shared modules:
- `Common`: `Option`, integer points standing in for the source's complex-number coordinates, and small arithmetic helpers.
- `Decimal`: `str`/`int` of non-negative integers as digit sequences.
- `Bits`: powers of two, bits, exclusive-or and shifts on unbounded naturals.

Parsing (`load`), the `aocd` puzzle download and answer submission, and the
timing decorators are outside the model.

## Model

| member | source | states |
|---|---|---|
| Day01.Insert | src/day1.py:14 | inserting into a sorted list keeps it sorted and adds exactly that one value |
| Day01.Sort | src/day1.py:14 | `sorted` returns a sorted permutation of its input |
| Day01.SortedUnique | src/day1.py:14 | two sorted lists with the same values are equal, so the sorted order is unique |
| Day01.Zip | src/day1.py:17 | `zip` pairs the k-th elements, up to the shorter list's length |
| Day01.SumDistancesNonNegative | src/day1.py:16-18 | the summed absolute differences are never negative |
| Day01.SumDistancesOfEqualPairs | src/day1.py:16-18 | pairs of equal numbers add nothing to the distance |
| Day01.Part1 | src/day1.py:12-20 | the loop sums the distances of the sorted lists paired up, and the total is non-negative |
| Day01.TotalDistancePermutationInvariant | src/day1.py:12-20 | reordering either input list leaves the total distance unchanged |
| Day01.TotalDistanceOfPermutationIsZero | src/day1.py:12-20 | two lists holding the same values are at distance zero |
| Day01.Part2 | src/day1.py:25-33 | the loop sums each left value times its number of occurrences on the right |
| Day01.SimilarityWithoutMatches | src/day1.py:25-33 | when no left value occurs on the right, the similarity is zero |
| Day01.SimilarityRemoveAt | src/day1.py:30-31 | each left value contributes exactly its own term, wherever it sits |
| Day01.SimilarityIgnoresOrderOfLeft | src/day1.py:30-31 | reordering the left list leaves the similarity unchanged |
| Day02.Diffs | src/day2.py:34 | the k-th difference is level k+1 minus level k, one fewer than the levels (none for under two) |
| Day02.DropLevel | src/day2.py:40-41 | the report with exactly the level at i removed, the others in order |
| Day02.ShortReportIsSafe | src/day2.py:33-37 | a report of fewer than two levels is safe (no differences to check) |
| Day02.SafeIsStrictlyMonotone | src/day2.py:33-37 | a safe report strictly increases or strictly decreases, by at most 3 per step over any span |
| Day02.StepBound | src/day2.py:34-36 | steps of 1..3 (or -3..-1) bound the change between any two levels |
| Day02.DropFirstKeepsSafe | src/day2.py:26-27 | dropping the first level of a safe report leaves it safe |
| Day02.CountSafeBound | src/day2.py:10-30 | no more reports are safe than tolerable, and no more tolerable than there are reports |
| Day02.Part1 | src/day2.py:10-17 | counts the safe reports, at most the number of reports |
| Day02.AnyDampenedSafe | src/day2.py:26-27 | true exactly when dropping some single level makes the report safe |
| Day02.Part2 | src/day2.py:22-30 | counts the reports safe as-is or after dropping one level, at least as many as part 1 |
| Day03.SumProductsRemove | src/day3.py:14 | the sum of products does not depend on which mul is taken first |
| Day03.Part1 | src/day3.py:12-14 | sums a * b over every recorded mul |
| Day03.DisabledIff | src/day3.py:23-33 | a position is disabled exactly when the nearest earlier marker is a `don't()`; with none it is enabled |
| Day03.SumBelowIsSumProducts | src/day3.py:25-29 | summing muls by offset below n equals the unordered sum of the muls below n |
| Day03.EnabledSumBounds | src/day3.py:23-35 | the enabled sum never exceeds the sum of all muls, and equals it when there is no `don't()` |
| Day03.EnabledSumStable | src/day3.py:25 | scanning further past the last mul changes neither sum |
| Day03.SumBelowPastAll | src/day3.py:14 | the offset-ordered sum past every mul is the sum of all muls |
| Day03.MaxOffset | src/day3.py:21 | `max` of the offsets: the largest element, or none for the empty set where Python raises |
| Day03.Part2 | src/day3.py:19-35 | scans the offsets up to the largest, adding only enabled muls; no result when nothing was matched |
| Day03.Part2AtMostPart1 | src/day3.py:12-35 | part 2 never exceeds part 1, and equals it when there is no `don't()` |
| Day04.TextAt | src/day4.py:44-47 | the characters at (x, y) plus each offset, present exactly when every such cell is inside the grid |
| Day04.XmasShape | src/day4.py:38-41 | an X-MAS is centred on an 'A' off the border, with one 'M' and one 'S' at the ends of each diagonal |
| Day04.Columns | src/day4.py:55-58 | the c-th vertical line holds grid[r][c] for every row r |
| Day04.Diagonal | src/day4.py:61-65 | the diagonal at offset off is n - abs(off) long |
| Day04.AntiDiagonalLine | src/day4.py:68-72 | the flipped diagonal at offset off is n - abs(off) long |
| Day04.Diagonals | src/day4.py:61-65 | 2n - 1 diagonal lines for an n-by-n grid (none for an empty one) |
| Day04.AntiDiagonals | src/day4.py:68-72 | 2n - 1 anti-diagonal lines for an n-by-n grid (none for an empty one) |
| Day04.DiagonalCoversCell | src/day4.py:61-65 | every cell lies on the diagonal of offset c - r |
| Day04.AntiDiagonalCoversCell | src/day4.py:68-72 | every cell lies on the anti-diagonal of offset n - 1 - c - r |
| Day04.Occurrences | src/day4.py:18-19 | `str.count` finds non-overlapping occurrences, which together fit in the line |
| Day04.CountLinesAppend | src/day4.py:16-19 | counting two groups of lines separately gives the sum |
| Day04.Part1 | src/day4.py:14-21 | counts "XMAS" and "SAMX" in every row, column, diagonal and anti-diagonal |
| Day04.Part2 | src/day4.py:26-35 | counts the cells at the centre of an X-MAS |
| Day04.BorderRowHasNone | src/day4.py:30-33 | the first and last rows hold no X-MAS centre |
| Day04.InnerRowBound | src/day4.py:31-33 | a row holds no X-MAS centre in its first or last column |
| Day04.RowsBound | src/day4.py:30-33 | the rows scanned so far hold at most (interior rows) * (n - 2) centres |
| Day04.Part2Bound | src/day4.py:26-35 | a grid of side n has at most (n - 2) squared X-MAS centres |
| Day05.IndexOf | src/day5.py:44 | `list.index` returns the first position holding the page |
| Day05.SatisfiesIff | src/day5.py:39-48 | an update satisfies the rules exactly when no rule whose two pages both occur has its first page placed after its second |
| Day05.SinglePageSatisfies | src/day5.py:40-42 | a one-page update satisfies every rule set |
| Day05.Middle | src/day5.py:51-52 | the middle page is one of the update's pages |
| Day05.Swap | src/day5.py:62 | swapping two positions keeps the length and the pages |
| Day05.FixupIsPermutation | src/day5.py:55-62 | `fixup` only reorders: same length, same pages |
| Day05.FixupKeepsSatisfied | src/day5.py:55-62 | `fixup` leaves an update that satisfies the rules unchanged |
| Day05.Fixup | src/day5.py:55-62 | the in-place loop swaps the two pages of each broken rule in turn |
| Day05.Part1 | src/day5.py:10-18 | sums the middle pages of the updates that satisfy the rules |
| Day05.RepairSpec | src/day5.py:28-30 | the repair loop's result after at most `fuel` rounds of `fixup`: a reordering of the update's pages |
| Day05.RepairSpecSettles | src/day5.py:28-30 | once a round count leaves the rules satisfied, more rounds change nothing |
| Day05.RepairSpecUnsettled | src/day5.py:28-30 | a repair that has not reached an ordering obeying the rules has run `fixup` exactly `fuel` times |
| Day05.Repair | src/day5.py:28-30 | the in-place loop leaves the update the repair function gives; it keeps the pages, marks the update incorrect exactly when it broke a rule, leaves a correct one untouched, and reports whether it ended satisfied |
| Day05.Repaired | src/day5.py:26-30 | every update repaired, each keeping its length and pages |
| Day05.RepairAll | src/day5.py:26-30 | when every repair ends, each update is its repair-function result and obeys the rules, and the flags mark exactly the updates that broke a rule |
| Day05.SumFlagged | src/day5.py:32-34 | sums the middle pages of exactly the flagged updates |
| Day05.Part2 | src/day5.py:23-36 | repairs every update in place; when every repair ends, the updates are the repair-function results and obey the rules, and the result sums their middle pages over exactly the updates that broke a rule |
| Day06.Step | src/day6.py:21-25 | one round turns right while blocked and advances onto a free cell, keeping a unit heading; with no free side the guard stays put |
| Day06.TurnFacts | src/day6.py:23-24 | turning right keeps the heading a unit step |
| Day06.Trace | src/day6.py:69 | the record of the first n rounds holds n states |
| Day06.TraceAt | src/day6.py:69 | entry k of the record is the state after k rounds |
| Day06.TurnRight | src/day6.py:23-24 | the turning loop ends on the first free heading, and never ends exactly when all four sides are walls |
| Day06.VisitedStep | src/day6.py:22 | each round adds the current cell to the visited set |
| Day06.Part1 | src/day6.py:15-27 | counts the distinct cells occupied before the guard first leaves the grid, at least one when it starts inside |
| Day06.DetectCycle | src/day6.py:78-92 | the tortoise and hare report a repeat exactly when some entry k >= 1 equals entry 2k |
| Day06.ShiftRepeat | src/day6.py:60-75 | the walk is deterministic: once a state repeats, everything after it repeats |
| Day06.FoldIntoPeriod | src/day6.py:60-75 | every later state equals one seen before the first repeat ends |
| Day06.RepeatMeansLoop | src/day6.py:65-67 | a repeat among the recorded in-grid states means the guard never leaves |
| Day06.IsGuardLooping | src/day6.py:60-75 | true only for a guard that never leaves the grid, false only for one that does |
| Day06.CountObstructions | src/day6.py:39-48 | counts exactly the candidate cells whose extra wall traps the guard |
| Day06.Part2 | src/day6.py:32-52 | with limits as the reader builds them, counts the cells whose extra wall traps the guard |
| Day06.CandidatesAreGridCells | src/day6.py:39-43 | part 2 tries exactly the free in-grid cells other than the start |
| Decimal.ToDigits | src/day7.py:47-48 | `str(n)` gives decimal digits without a leading zero, exactly as many as n needs |
| Decimal.DigitsRoundTrip | src/day7.py:47-48 | reading back the digits of n gives n: `int(str(n)) == n` |
| Decimal.FromDigitsAppend | src/day7.py:47-48 | reading two glued digit strings shifts the first left by the length of the second |
| Day07.ConcatArithmetic | src/day7.py:47-48 | `concat(a, b)` is a * 10^d + b, where d is the number of digits of b |
| Day07.PrefixedMembers | src/day7.py:37 | one level of `product`: the words are exactly an allowed operator followed by a shorter word |
| Day07.ProductMembers | src/day7.py:37 | `product(ops, repeat=n)` lists exactly the n-letter words over the allowed operators |
| Day07.FoldLeft | src/day7.py:38-40 | the loop folds the values left to right with the word's operators, ignoring precedence |
| Day07.Evaluate | src/day7.py:35-44 | returns lval exactly when some operator word turns the values into lval, and nothing otherwise |
| Day07.WordSolves | src/day7.py:41-42 | a matching word found in the product makes the equation solvable |
| Day07.NoWordSolves | src/day7.py:44 | when no word of the product matches, no operator choice solves the equation |
| Day07.Solve | src/day7.py:26-32 | sums lval over exactly the solvable equations |
| Day07.Part1 | src/day7.py:14-16 | the calibration with addition and multiplication |
| Day07.Part2 | src/day7.py:21-23 | the calibration with concatenation added |
| Day07.SingleValue | src/day7.py:37-42 | with one value, the equation holds exactly when that value is lval |
| Day07.SolvableMonotone | src/day7.py:37 | allowing more operators never loses a solution |
| Day07.CalibrationMonotone | src/day7.py:26-32 | allowing more operators never lowers the calibration |
| Day07.Part2AtLeastPart1 | src/day7.py:14-23 | the part 2 answer is at least the part 1 answer |
| Day08.Walk | src/day8.py:37-45 | the points one step, two steps, ... beyond p, all inside the grid, stopping just before the first point outside |
| Day08.WalkStep | src/day8.py:37 | each point of the walk is one step of dist past the one before |
| Day08.WalkPoints | src/day8.py:37-45 | the k-th point of the walk is p + (k + 1) * dist |
| Day08.WalkReaches | src/day8.py:37-45 | when p and p + m * dist are inside the grid, the walk reaches at least m points |
| Day08.Emitted | src/day8.py:37-40 | the antinodes beyond one antenna of a pair all lie inside the grid |
| Day08.CombinationsIndex | src/day8.py:34 | `combinations(locs, 2)` lists every pair i < j |
| Day08.CombinationsSource | src/day8.py:34 | every pair `combinations(locs, 2)` lists is some pair i < j |
| Day08.Locations | src/day8.py:28 | lists exactly the positions of the antennas of one frequency, each once |
| Day08.AddBeyond | src/day8.py:37-45 | one side loop adds the walk beyond an antenna, or only its first point without harmonics |
| Day08.PairsEmittedSnoc | src/day8.py:34-45 | each further pair adds the antinodes beyond both of its antennas |
| Day08.PairsEmittedMembers | src/day8.py:34-45 | a point is emitted by the pairs exactly when some pair emits it on one of its sides |
| Day08.CombinationsDistinct | src/day8.py:34 | pairs of distinct locations hold two distinct antennas |
| Day08.CombinationsEmit | src/day8.py:34-45 | the combinations emit exactly what the ordered pairs of distinct antennas emit |
| Day08.EmitterFound | src/day8.py:34-45 | every emitted point comes from a pair of antennas of that frequency |
| Day08.AddPairs | src/day8.py:34-45 | the pair loop adds the antinodes beyond both antennas of every pair |
| Day08.AddFrequency | src/day8.py:27-45 | adds exactly the antinodes of one frequency: the antennas themselves with harmonics, then the pairs' |
| Day08.Antinodes | src/day8.py:24-45 | collects exactly the antinodes of all frequencies |
| Day08.Solve | src/day8.py:10-47 | the answer is the number of distinct antinodes, once per side (part 1) or repeated (part 2) |
| Day08.AntinodesInBounds | src/day8.py:37-45 | every antinode lies inside the grid |
| Day08.EmittedGrows | src/day8.py:39-45 | the single-step antinodes are among the repeated ones |
| Day08.Part1WithinPart2 | src/day8.py:10-21 | every part 1 antinode is also a part 2 antinode |
| Day08.HarmonicsCoverLine | src/day8.py:30-45 | with harmonics every antenna and every in-grid point a + m * (a - b) beyond it is an antinode |
| Day09.Repeat | src/day9.py:22-24 | `[c] * n`: n copies of c |
| Day09.Layout | src/day9.py:16-29 | the expanded layout has as many blocks as the disk map's sum |
| Day09.MakeBlocks | src/day9.py:16-29 | the loop alternates file and free entries, numbering files from 0, and builds that layout with `len(blocks) == sum(data)` |
| Day09.RepeatCount | src/day9.py:22-24 | a run of n copies of c holds c n times and nothing else |
| Day09.LayoutFileBlocks | src/day9.py:16-29 | file k occupies exactly `data[2k]` blocks of the layout |
| Day09.SwapCells | src/day9.py:53 | the swap exchanges two blocks, leaves the rest alone and keeps the blocks |
| Day09.MoveBlocks | src/day9.py:32-56 | the two-pointer loop rearranges the blocks so that every file block precedes every free block |
| Day09.ChecksumBlocks | src/day9.py:59-65 | sums position times id over the file blocks |
| Day09.Part1 | src/day9.py:10-13 | the checksum of a compacted rearrangement of the layout |
| Day09.BlockSumAppend | src/day9.py:59-65 | the checksum of two stretches is the sum of their checksums, the second shifted by the first's length |
| Day09.RepeatBlockSum | src/day9.py:120-123 | a file span of n blocks contributes `sum(fid * i for i in range(pos, pos + n))`, a free one nothing |
| Day09.Expand | src/day9.py:116-123 | writing out the spans gives as many blocks as their sizes add up to |
| Day09.ChecksumFiles | src/day9.py:116-125 | walks the spans, advancing the position by every span, free or not |
| Day09.FilesChecksumIsBlockSum | src/day9.py:116-125 | the span checksum equals the block checksum of the written-out spans |
| Day09.FileMap | src/day9.py:76-88 | one span per disk-map entry |
| Day09.MakeFiles | src/day9.py:76-88 | the loop builds those spans, numbering files from 0 |
| Day09.FileMapExpandsToLayout | src/day9.py:76-88 | the spans of `make_files`, written out, are the blocks of `make_blocks` |
| Day09.FindFile | src/day9.py:97 | `next(...)` finds the first span of the file, or nothing where it would raise StopIteration |
| Day09.FitFrom | src/day9.py:100-111 | the search returns an index at or after its starting point |
| Day09.FitFromIsLeftmost | src/day9.py:100-111 | the search finds the leftmost large-enough free span at or before the file, and fails exactly when there is none |
| Day09.AppendMeasures | src/day9.py:107-110 | disk size and file spans of two stretches add up |
| Day09.SingleMeasures | src/day9.py:107-110 | one span's disk size is its size, its file spans itself if it is a file |
| Day09.UpdateMeasures | src/day9.py:107-108 | replacing one span changes the disk size and file spans by that span only |
| Day09.InsertMeasures | src/day9.py:110 | `list.insert` adds exactly the inserted span |
| Day09.FileSpansContains | src/day9.py:107 | each file span is among the layout's file spans |
| Day09.SwapInMeasures | src/day9.py:107-108 | the two assignments keep the file spans and trade the free span's size for the file's |
| Day09.RelocateConserves | src/day9.py:106-110 | relocating a file into a large-enough free span, leftover included, keeps the disk size and the file spans |
| Day09.MoveFileConserves | src/day9.py:95-113 | each round keeps the disk size and the file spans |
| Day09.MoveAllConserves | src/day9.py:91-113 | the whole defragmentation keeps the disk size and the file spans |
| Day09.MoveFileGoesLeft | src/day9.py:100-111 | a file only moves into the leftmost large-enough free span to its left |
| Day09.MoveFileKeepsFirstFile | src/day9.py:95-113 | file 0 at the front never moves |
| Day09.FileList.MaxFileId | src/day9.py:93 | `max` of the file ids: present exactly when some span is a file, and the largest id |
| Day09.FileList.MoveFileRound | src/day9.py:96-113 | one round in place: succeeds exactly when the file exists, then the list is that round's result |
| Day09.FileList.MoveFiles | src/day9.py:91-113 | moves files from the largest id down to 1, failing where the source raises |
| Day09.MaxId | src/day9.py:93 | the largest file id, absent exactly when there is no file |
| Day09.MaxIdCharacterized | src/day9.py:93 | any value with those properties is that largest id |
| Day09.Part2 | src/day9.py:70-73 | the checksum of the defragmented spans, present exactly when every round succeeds; those spans keep the disk size and the files |
| Day10.Height | src/day10.py:67 | every height is a single digit, at most 9 |
| Day10.HeadsBefore | src/day10.py:34-35 | the row-major scan of the first r rows lists exactly their cells of height 0 |
| Day10.HeadsInRow | src/day10.py:34-35 | the scan of one row's first c columns lists exactly their cells of height 0 |
| Day10.Trailheads | src/day10.py:34-35 | `find_trailheads` lists exactly the in-grid cells of height 0 |
| Day10.KeepInBounds | src/day10.py:58 | keeps exactly the points inside the limits |
| Day10.UnitStep | src/day10.py:57 | the four offsets are exactly the moves of Manhattan length one |
| Day10.Neighbors | src/day10.py:56-58 | `neighbors` yields exactly the in-grid points one orthogonal step away |
| Day10.HikesStart | src/day10.py:38-53 | every trail found from a cell starts at that cell |
| Day10.ViaStart | src/day10.py:48-51 | every trail through a neighbour list starts at the cell and continues to one of those neighbours |
| Day10.ViaMembers | src/day10.py:48-51 | a trail through the neighbours is the cell followed by a trail from a neighbour one step higher |
| Day10.HikeCons | src/day10.py:48-51 | a trail of two or more cells is a first climbing step followed by a trail |
| Day10.HikesExact | src/day10.py:38-53 | `traverse` finds exactly the trails that climb by one per orthogonal step from the cell to a 9 |
| Day10.HikeHeights | src/day10.py:49-50 | heights along a trail climb by one per cell |
| Day10.HikeLength | src/day10.py:43-51 | a trail from height x has 10 - x cells |
| Day10.SummitHikes | src/day10.py:43-44 | from a 9 the only trail is the one-cell trail |
| Day10.Traverse | src/day10.py:38-53 | the recursive search returns the accumulated paths plus every trail from the cell, each prefixed by the current path |
| Day10.EndsAtMostTrails | src/day10.py:26-27 | there are no more distinct end points than trails |
| Day10.TrailheadCount | src/day10.py:25-29 | one trailhead adds its number of trails, or of distinct summits reached |
| Day10.Solve | src/day10.py:22-31 | sums those counts over all trailheads |
| Day10.Part1 | src/day10.py:10-12 | the sum over trailheads of the distinct summits reached |
| Day10.Part2 | src/day10.py:17-19 | the sum over trailheads of the distinct trails |
| Day10.SummitsAtMostTrails | src/day10.py:10-19 | the part 1 answer never exceeds the part 2 answer |
| Day10.TrailheadHikes | src/day10.py:24-25 | every trail from a trailhead has ten cells and climbs from 0 to 9 |
| Day11.TransformCases | src/day11.py:35-46 | 0 becomes 1; a stone of 2k digits splits into a k-digit high part and a low part below 10^k that recombine to the stone; any other stone is multiplied by 2024 |
| Day11.SplitFacts | src/day11.py:40-44 | the two halves of the digits, read back, recombine to the stone |
| Day11.Blink | src/day11.py:22-32 | one stone becomes between 1 and 2^n stones after n blinks |
| Day11.TotalAppend | src/day11.py:13 | the count over two rows is the sum of the counts |
| Day11.TotalStep | src/day11.py:27-32 | counting n + 1 blinks per stone equals counting n blinks on the row after one blink |
| Day11.TotalPieces | src/day11.py:27-32 | the pieces of one stone count `blink(stone, n + 1)` between them |
| Day11.TotalIsRowLength | src/day11.py:12-32 | the memoised per-stone count equals the length of the row simulated blink by blink |
| Day11.TotalOfZeroBlinks | src/day11.py:24-25 | with no blinks every stone counts once |
| Day11.TotalBounds | src/day11.py:12-32 | the answer lies between the number of stones and that number times 2^n |
| Day11.Part1 | src/day11.py:12-13 | the number of stones after 25 blinks |
| Day11.Part2 | src/day11.py:18-19 | the number of stones after 75 blinks |
| Day12.KeepSame | src/day12.py:81-82 | keeps exactly the candidates that are in bounds and carry the given label |
| Day12.GetNeighbors | src/day12.py:75-83 | a plot is returned iff it is an in-bounds orthogonal neighbour of pos with pos's label |
| Day12.Positions | src/day12.py:49-50 | the set is pos plus exactly its same-label touching plots |
| Day12.LastTouching | src/day12.py:54-57 | finds the last (most recent) area meeting the positions, or reports that none does |
| Day12.Flood.JoinArea | src/day12.py:54-57 | adds the positions to that area; areas only grow, the invariant (labels, links to roots, roots apart, coverage) is kept |
| Day12.Flood.NewArea | src/day12.py:59-60 | appends the positions as a new area with pos as its root; the new root is linked to no earlier root of its label |
| Day12.Flood.FloodFill | src/day12.py:45-65 | marks pos visited; keeps the invariant; the areas only grow, every added plot was visited, every newly visited plot has all its same-label neighbours visited |
| Day12.Flood.FillNeighbors | src/day12.py:63-65 | after the loop every neighbour is visited, with the same guarantees as the fill |
| Day12.Flood.FillNeighbor | src/day12.py:64-65 | fills n only when unvisited; n is visited afterwards |
| Day12.FindAreas | src/day12.py:41-72 | the result maps each label to areas that are exactly its regions: labelled right, covering every plot, non-empty, closed under touching, internally linked, pairwise disjoint |
| Day12.FloodDone | src/day12.py:67-72 | once every plot is visited the fill invariant yields the region map |
| Day12.OneArea | src/day12.py:54-60 | a plot is in at most one area of its label |
| Day12.BordersBeside | src/day12.py:97-98 | the four edges of a plot are exactly the edges that have the plot on one side |
| Day12.FindPerimeter | src/day12.py:86-94 | an edge is kept iff exactly one of the two plots it separates is in the area |
| Day12.PerimeterHas | src/day12.py:91-93 | an edge is on the perimeter iff it separates a plot of the area from one outside |
| Day12.SinglePerimeter | src/day12.py:86-98 | a single plot has its four edges as perimeter, so length 4 |
| Day12.PerimeterBound | src/day12.py:86-98 | an area of n plots has at most 4n perimeter edges |
| Day12.PerimeterNonEmpty | src/day12.py:86-94 | a non-empty area has a non-empty perimeter |
| Day12.CrossingAtCorner | src/day12.py:102-123 | the mirrored computation tests the two edges across the corner between the segments, and is symmetric in them |
| Day12.TraceSide | src/day12.py:132-148 | the fringe walk removes from the pool exactly the edges of the first edge's side: the maximal run of edges one step apart along its line with no crossing in between |
| Day12.SideStartFacts | src/day12.py:128-150 | walking back along a side from any edge reaches a side start, and the side start of a side start is itself |
| Day12.Neighbour | src/day12.py:141-146 | a neighbour two half-steps along the line continues the side exactly when it is an edge and the two are not separated by a crossing, and then both have the same side start |
| Day12.SideHas | src/day12.py:138-148 | an edge is on the side of `first` exactly when both walk back to the same side start |
| Day12.CountSides | src/day12.py:101-152 | the count is the number of side starts: edges whose predecessor along their line does not continue them, one per maximal side |
| Day12.SideStartsBound | src/day12.py:101-152 | there are no more sides than perimeter edges, and none exactly when the perimeter is empty |
| Day12.SinglePlotSides | src/day12.py:101-152 | a lone plot has four sides |
| Day12.SidesPrice | src/day12.py:32-34 | an area's sides price, size times its number of sides, lies between its size and its perimeter price |
| Day12.ListSidesBounds | src/day12.py:29-36 | for a label's areas, the sides price sum lies between the size sum and the perimeter price sum |
| Day12.MapSidesBounds | src/day12.py:28-36 | over the whole area map, the sides price sum lies between the size sum and the perimeter price sum |
| Day12.PriceList | src/day12.py:29-36 | the price of one label's areas: the sum of size times perimeter length (part 1), or of size times number of sides (part 2) |
| Day12.Solve | src/day12.py:24-38 | returns, with the area map it found and the order of its labels, the sum over all areas of size times perimeter length (part 1) or of size times number of sides (part 2), the latter between the total size and the former; the areas are the regions and every label is taken once |
| Day14.Wrap | src/day14.py:26-27 | the result lies in [0, w) × [0, h) |
| Day14.WrapUnique | src/day14.py:26-27 | wrap(p) is the only in-range point congruent to p coordinate-wise (floor remainder) |
| Day14.WrapNegative | src/day14.py:26-27 | a coordinate of -1 wraps to the far edge w-1 / h-1 |
| Day14.WrapAdd | src/day14.py:21 | wrapping an intermediate position does not change where the next wrapped step lands |
| Day14.Move | src/day14.py:19-23 | every robot, in place, moves to wrap(pos + vel) with its velocity unchanged; the length is kept |
| Day14.IterateClosed | src/day14.py:12-13 | after k ≥ 1 moves a robot stands at wrap(p + k·v) with velocity v |
| Day14.IterateInRange | src/day14.py:19-23 | after at least one move every robot is on the board |
| Day14.QuadrantExact | src/day14.py:31-42 | the elif chain puts a robot in quadrant k exactly when it lies in k's open rectangle; robots on the middle row or column are in none |
| Day14.CountQuadrants | src/day14.py:30-44 | each of the four counts is the number of robots in that quadrant |
| Day14.QuadrantsPartition | src/day14.py:30-44 | the four counts plus the robots on the middle lines make up all robots, so q1+q2+q3+q4 ≤ number of robots |
| Day14.Part1 | src/day14.py:11-16 | the robots end at the state after 100 moves and the answer is the product of the four quadrant counts of that state |
| Day14.MakeGrid | src/day14.py:77-81 | an h × w grid whose cell (y, x) holds the number of robots standing at (x, y) |
| Day14.GridTotalIsCount | src/day14.py:77-81 | when all robots are on the board the cells sum to the number of robots |
| Day14.SeqMax | src/day14.py:70 | max of a non-empty list: an element that bounds all others |
| Day14.RunsMax | src/day14.py:63-70 | the span list's last entry is the trailing run and its maximum the longest run of occupied tiles |
| Day14.TrailShape | src/day14.py:65-68 | the trailing run is all occupied and preceded by an empty tile or the row start |
| Day14.LongestIsLongest | src/day14.py:63-70 | the recorded maximum is attained by an occupied run and no occupied run is longer |
| Day14.CountLongExact | src/day14.py:74 | the generator sum counts exactly the rows whose longest run is at least 5 |
| Day14.ScanRow | src/day14.py:63-68 | the spans of a row are its run list: a new 0 at each empty tile, the last entry incremented at each occupied one |
| Day14.LongestRows | src/day14.py:60-70 | the per-row maxima are, row by row, the longest runs of occupied tiles in the grid's rows |
| Day14.TreeHeuristic | src/day14.py:56-74 | true iff at least three rows hold a run of ≥ 5 occupied tiles |
| Day14.Part2 | src/day14.py:49-54 | returns the first second i ≥ 1 (within the fuel) after which the heuristic holds, with the robots then at i moves; None iff no second up to the fuel passes |
| Day15.AheadBounded | src/day15.py:28-29 | a cell of the finite grid lies within the coordinate bound, so the walk along a move leaves the grid after finitely many steps |
| Day15.LastBox | src/day15.py:27-29 | the loop stops at the last box cell of the run ahead of the robot: lastbox is the robot's cell moved as many times as the run of boxes ahead is long, and one more step lands on the first cell after the run |
| Day15.RunLengthCells | src/day15.py:28-29 | every cell of the run is a box cell ("O", "[" or "]") and the cell after the run is not |
| Day15.Warehouse.ShiftRun | src/day15.py:34-37 | the boxes of the run are moved one cell along, farthest first, each by a write and a delete |
| Day15.ShiftBackGet | src/day15.py:34-37 | after shifting a run of n cells, each of the n cells past the robot holds what the cell behind it held, the first becomes empty and every other cell is unchanged |
| Day15.SimpleMoveBlocked | src/day15.py:22-31 | the grid and robot stay as they were exactly when a wall is directly ahead or right after the run of boxes |
| Day15.SimpleMoveEffect | src/day15.py:21-43 | an unblocked push puts the robot one cell ahead, moves each box of the run one cell along, deletes the robot's old cell and changes nothing else |
| Day15.SimpleMoveAt | src/day15.py:34-41 | per cell, walls stay and the box cells are the old ones, with the first of the run traded for the cell after its end |
| Day15.SimpleMoveKeeps | src/day15.py:21-43 | a simple push keeps every wall and the number of box cells |
| Day15.Warehouse.SimpleMove | src/day15.py:21-43 | the warehouse grid and the returned position are those of the simple-push rule |
| Day15.SimpleRunKeeps | src/day15.py:13-16 | after any sequence of simple pushes the walls and the number of box cells are unchanged and the robot's cell holds the robot |
| Day15.Part1 | src/day15.py:13-18 | the score is the GPS sum of the grid after performing every move with the simple rule |
| Day15.CollectCases | src/day15.py:83-108 | the five branches of collect_boxes: a wall gives None, a free cell returns the boxes so far, a box half recurses into both cells ahead of its two halves, anything else falls through to None |
| Day15.CollectSound | src/day15.py:83-108 | what is returned is a set of box left halves that the push can enter and that are each pushable into the set |
| Day15.CollectComplete | src/day15.py:83-108 | any set of boxes closed under pushing that the push can enter contains everything collected, and collect_boxes then succeeds |
| Day15.CollectExact | src/day15.py:63-65 | collecting succeeds iff some closed set of boxes lets the push enter the cell ahead, and the collected boxes are then the least such set |
| Day15.ClearedGet | src/day15.py:68-70 | after the clearing loop both halves of every collected box are floor and every other cell is unchanged |
| Day15.DrawnGet | src/day15.py:71-73 | after the drawing loop the cells one ahead of each collected box hold "[" and "]" and every other cell is unchanged |
| Day15.CollectedStarts | src/day15.py:63-73 | in a grid where every "[" has its "]" to the right, each collected box starts with "[", lies ahead of the robot and no two overlap |
| Day15.ComplexMoveEffect | src/day15.py:57-80 | an unblocked vertical push leaves the robot one cell ahead, each collected box drawn one cell along, the cells it left as floor, the old robot cell deleted, and nothing else changed |
| Day15.ComplexMoveAt | src/day15.py:67-78 | per cell, walls stay and the "[" cells are the old ones with the pushed boxes moved one cell along |
| Day15.ComplexMoveKeeps | src/day15.py:57-80 | a vertical push of a well-formed grid keeps every wall and the number of "[" cells |
| Day15.Warehouse.ComplexMove | src/day15.py:57-80 | horizontal moves follow the simple rule; vertical moves collect, clear, redraw and move the robot, and the new grid and position are those of the part 2 rule |
| Day15.Part2 | src/day15.py:48-54 | the score is the GPS sum of the grid after performing every move with the part 2 rule |
| Day15.SumGPSPick | src/day15.py:113-115 | the GPS sum of a set of cells does not depend on the order the dict is visited in |
| Day15.SumGPSUnion | src/day15.py:113-115 | the GPS sums of two disjoint sets of cells add up |
| Day15.ScoreBoxes | src/day15.py:111-116 | the score is the sum of 100·row + column over the cells holding "O" or "[" |
| Day16.MazeGraph | src/day16.py:63-84 | a graph with exactly the edges IsEdge admits, each weighted 1 for a step and 1000 for a turn |
| Day16.MazeGraphUnique | src/day16.py:63-84 | any edge map that has exactly those edges and weights is that graph |
| Day16.OutEdgesExact | src/day16.py:73-82 | the edges added for one state are its forward step when the cell ahead is not a wall, and its two turns, each with its weight |
| Day16.AddStateEdges | src/day16.py:74-82 | the graph gains exactly the edges of one state, added in place |
| Day16.BuildGraph | src/day16.py:63-84 | the row-by-row scan of the box produces the maze graph: an edge u → v iff u is a free in-box cell facing one of the four ways and v is one step ahead into a non-wall cell (weight 1) or a quarter turn (weight 1000) |
| Day16.NoWallStates | src/day16.py:70-71 | no edge leaves or enters a wall cell, and every edge leaves a cell of the box |
| Day16.ForwardEdge | src/day16.py:77-78 | the forward edge of a node exists iff the cell ahead is not a wall, even outside the box, and weighs 1 |
| Day16.TurnEdges | src/day16.py:81-82 | every node has both turning edges, of weight 1000, to nodes |
| Day16.TurnsReturn | src/day16.py:10-11 | four right turns, or a right and a left turn in either order, give back the starting orientation |
| Day16.EdgeWeightByOrient | src/day16.py:59 | an edge weighs 1 iff it keeps the orientation, 1000 otherwise |
| Day16.PathScore | src/day16.py:56-60 | the loop over consecutive pairs computes the path's score |
| Day16.ScoreBounds | src/day16.py:56-60 | a path of at most one state scores 0; otherwise between 1 and 1000 per move |
| Day16.ScoreIsWalkWeight | src/day16.py:56-60 | on a walk of the maze graph the score equals the total weight of the edges taken |
| Day16.SeqMin | src/day16.py:51 | min of a non-empty list is an element no greater than any other |
| Day16.KeepBestExact | src/day16.py:52 | the kept paths are exactly the collected paths whose score equals the given one |
| Day16.FindBestPaths | src/day16.py:41-53 | None iff the search finds no path to some end orientation; otherwise the minimum over the scores of all collected paths and the collected paths with that score, in order |
| Day16.BestPathsAreBest | src/day16.py:51-53 | no collected path scores below the best score and a collected path is kept iff it scores it |
| Day16.VistasExact | src/day16.py:35-37 | a cell is counted iff some state of some best path stands on it, whatever its orientation |
| Day16.CountVistas | src/day16.py:35-38 | the count is the number of distinct cells over the paths |
| Day16.Part1 | src/day16.py:18-23 | None iff the search fails; otherwise a score of some collected path that no collected path beats |
| Day16.Part2 | src/day16.py:28-38 | None iff the search fails; otherwise the number of distinct cells on the best-scoring collected paths |
| Bits.XorBits | src/day17.py:41 | bit k of `x ^ y` is set exactly when bit k is set in one of x and y |
| Bits.XorTwice | src/day17.py:41 | xoring with the same value twice gives the value back |
| Bits.XorBelow | src/day17.py:49 | the xor of two values below 2^k stays below 2^k |
| Bits.DivPow2Exact | src/day17.py:39 | halving k times is the floor division `a // 2**k` |
| Day17.Combo | src/day17.py:27-35 | a combo operand 0..3 is itself, 4..6 a register; it has no value exactly when it is 7 or more |
| Day17.StepSpec | src/day17.py:38-57 | per opcode: adv/bdv/cdv put `a // 2**combo` in a, b or c; bxl and bxc xor b; bst puts `combo % 8` in b; jnz jumps to the literal when a is nonzero; out appends one value below 8; every other instruction advances by 2; the step fails exactly when an opcode needing a combo value gets operand 7 or more |
| Day17.Interpret | src/day17.py:19-59 | the loop over local registers and pointer gives the same outcome as running Step until the pointer leaves the program |
| Day17.RunOutput | src/day17.py:19-59 | a program shorter than two words outputs nothing; a halted run only appends to the output, at most one value per instruction, each in 0..7 |
| Day17.RunMoreFuel | src/day17.py:22 | a run that halted or failed gives the same outcome with any larger instruction budget |
| Day17.JoinDigits | src/day17.py:16 | joining output values in 0..7 with commas gives 2n-1 characters, the digit of value i at position 2i and commas between |
| Day17.Part1 | src/day17.py:13-16 | the answer is the comma-joined output of the halted program, and absent when the program fails or runs out of budget |
| Day18.KeepFree | src/day18.py:59-62 | the filtered candidates are exactly the given ones that are inside the bounds and not walls, with none added |
| Day18.SuccessorsExact | src/day18.py:59-66 | the successors of a position are exactly the cells at Manhattan distance 1 that lie within the inclusive bounds and are not walls |
| Day18.EstimateAdmissible | src/day18.py:69-70 | the Manhattan distance between the ends of a walk is at most its number of steps, so the estimate never overshoots |
| Day18.StartIsGoal | src/day18.py:45-48 | when start is the goal, 0 steps is the shortest walk |
| Day18.Get | src/day18.py:46 | the queue hands out an entry that strictly precedes every remaining one on (estimate, tiebreaker); the rest keeps insertion order |
| Day18.RemoveLeast | src/day18.py:41-46 | removing the least entry leaves every other entry, in insertion order |
| Day18.FindPending | src/day18.py:45-56 | along any walk to the goal, the first cell not yet expanded still has a queue entry whose estimate is at most the walk's length |
| Day18.GoalFound | src/day18.py:46-48 | when the least entry is the goal, its estimate is the length of a shortest walk |
| Day18.NoneLeft | src/day18.py:45-56 | once the queue is empty, no walk reaches the goal |
| Day18.RelaxImproves | src/day18.py:51-53 | a recorded step count changes only on a strict improvement, and then to the current count plus one |
| Day18.Expand | src/day18.py:50-56 | expanding a state records each successor that is new or strictly improved and queues it with its estimate and the next tiebreaker; counts only fall, and the search state stays sound |
| Day18.AStarSearch | src/day18.py:37-56 | returns the length of a shortest walk from start to goal when one exists, and None exactly when none does; the loop terminates |
| Day18.Part1 | src/day18.py:11-17 | part 1 is the shortest walk from the origin to the corner with the first `length` coordinates as walls |
| Day18.TruthyIffOpen | src/day18.py:32-33 | the search result is truthy exactly when the origin is not the corner and some walk reaches the corner |
| Day18.Part2 | src/day18.py:20-34 | skipping repeats, the answer is the formatted first coordinate after which the search is falsy; None when the corner stays open after every fall |
| Day19.CanMakeIffDecomposition | src/day19.py:24-31 | the matcher recursion holds exactly for designs that are a concatenation of patterns, the empty design included |
| Day19.DecompositionHead | src/day19.py:27-30 | a design laid out by a non-empty sequence of patterns starts with the first one and the rest can be made |
| Day19.WaysPositiveIffCanMake | src/day19.py:24-57 | the count of ways is positive exactly when the matcher holds |
| Day19.WaysFromPositive | src/day19.py:53-57 | the partial sum over the first k patterns is positive exactly when one of them starts the design and the rest can be made |
| Day19.Matcher | src/day19.py:24-31 | `matcher` returns true for the empty design and otherwise exactly when some pattern starts the design and the rest can be made |
| Day19.Counter | src/day19.py:50-57 | `counter` returns 1 for the empty design and otherwise the sum, over the patterns the design starts with, of the ways to make the rest |
| Day19.CountMakeable | src/day19.py:17 | the number of makeable designs is at most the number of designs |
| Day19.MakeableCountsPositive | src/day19.py:12-45 | part 1 never exceeds part 2, and part 1 is 0 exactly when part 2 is 0 |
| Day19.Part1 | src/day19.py:12-19 | part 1 counts the designs the matcher accepts |
| Day19.Part2 | src/day19.py:38-45 | part 2 adds up the counter over all designs |
| Day20.NextFrom | src/day20.py:51-61 | the next cell is one step from the last cell, is not a wall, and is not the cell before the last |
| Day20.FollowShape | src/day20.py:47-63 | a built track starts with the given cells, ends at `end`, meets `end` nowhere before, and steps one cell at a time onto non-wall cells without turning back |
| Day20.NextMove | src/day20.py:51-61 | the move loop yields the first of UP, DOWN, LEFT, RIGHT that is neither a wall nor the cell just left |
| Day20.BuildTrack | src/day20.py:47-63 | `build_track` appends the chosen move until the last cell is `end` and returns the followed track |
| Day20.QuadrantWithin | src/day20.py:71-75 | each of the four quadrant sets holds only cells within Manhattan distance `size` |
| Day20.CheatPositionsWithin | src/day20.py:66-78 | every cheat target is a non-wall cell within Manhattan distance `size` |
| Day20.CheatPositionsCover | src/day20.py:66-78 | every non-wall cell within Manhattan distance `size`, the position itself included, is a cheat target |
| Day20.CheatPositionsExact | src/day20.py:66-78 | the cheat targets are exactly the non-wall cells within Manhattan distance `size` |
| Day20.Positions | src/day20.py:29 | the index table has exactly the track's cells as keys and maps each to an index holding that cell |
| Day20.PositionsLast | src/day20.py:29 | the index recorded for a cell is its last occurrence on the track |
| Day20.CheatsMember | src/day20.py:33-42 | a target is counted from index i exactly when it is a cheat target on the track whose index minus i minus the distance is at least `min_gain` |
| Day20.CheatsForward | src/day20.py:39-41 | with a positive `min_gain` every counted cheat lands later on the track |
| Day20.CountMonotone | src/day20.py:25-44 | allowing longer cheats never lowers the count |
| Day20.CountFrom | src/day20.py:33-42 | the inner loop counts exactly the targets from index i that gain at least `min_gain` |
| Day20.Solve | src/day20.py:25-44 | `solve` returns the number of (index, target) cheats that gain at least `min_gain`, summed over the track; None when the track cannot be built |
| Day20.Part1 | src/day20.py:11-15 | part 1 counts cheats of at most 2 steps that gain at least 100 |
| Day20.Part2 | src/day20.py:18-22 | part 2 counts cheats of at most 20 steps that gain at least 100 |
| Day20.PartsOrdered | src/day20.py:11-22 | part 2 counts at least as many cheats as part 1 on the same track |
| Day21.EdgesReversible | src/day21.py:128-209 | every edge of both keypads joins two buttons of that pad, carries a move, and has a reverse edge that carries the opposite move |
| Day21.Moves | src/day21.py:77-78 | a path of k buttons gives k - 1 moves, and move i is the one on the edge from button i to button i + 1 |
| Day21.Alternative | src/day21.py:80-81 | an alternative has one press per button of the path, ends with ACTION, and uses only directional-pad buttons |
| Day21.Alternatives | src/day21.py:76-81 | one alternative per path, in the table's order |
| Day21.GroupsShape | src/day21.py:70-88 | there are len(buttons) − 1 groups; group i has one alternative per shortest path from button i to button i + 1, each the path's moves followed by ACTION, all of the same length (so the assertion holds) |
| Day21.GroupsUsable | src/day21.py:83-86 | every group is non-empty and each alternative is a directional segment ending with ACTION |
| Day21.PathAlternatives | src/day21.py:75-81 | the inner loop builds the alternatives of one pair of buttons |
| Day21.AllIndirectSequences | src/day21.py:70-88 | `all_indirect_sequences` returns the groups for consecutive button pairs |
| Day21.PathDist | src/day21.py:111-116 | `path_distance` is 0 for fewer than two buttons |
| Day21.PathDistAppend | src/day21.py:111-116 | the distance of a concatenation is the distance of each half plus the step between them |
| Day21.PathDistance | src/day21.py:111-116 | the loop adds the directional-pad distances of consecutive buttons |
| Day21.Distances | src/day21.py:106-108 | `sequence_distance` has one distance per alternative, in order |
| Day21.SequenceDistance | src/day21.py:106-108 | the loop computes `sequence_distance` |
| Day21.FirstMin | src/day21.py:101 | `dist.index(min(dist))` is an index whose value is least, and every earlier value is larger |
| Day21.PickFirstMinimiser | src/day21.py:94-101 | a single alternative is passed through unchanged; otherwise the pick is the first alternative with the least distance |
| Day21.Optimal | src/day21.py:91-103 | `pick_optimal_paths` returns exactly one pick per group, in order |
| Day21.PickOptimalPaths | src/day21.py:91-103 | the loop builds the picks of `pick_optimal_paths` |
| Day21.Indirect | src/day21.py:55-67 | indirecting k buttons gives k − 1 segments, each typed on the directional pad and ending with ACTION |
| Day21.IndirectKeypad | src/day21.py:55-67 | `indirect_door_keypad` and `indirect_robo_keypad` pick the optimal alternative of every group |
| Day21.PressesAtLeastLength | src/day21.py:44-52 | at depth 0 `dfs` counts the buttons of its sequences, and at any depth it counts at least that many |
| Day21.PressesMonotone | src/day21.py:44-52 | one more robot level never lowers the count |
| Day21.PressesMonotoneFrom | src/day21.py:44-52 | `dfs` is monotone in its depth |
| Day21.Dfs | src/day21.py:44-52 | `dfs` counts the presses of its recursion: the segments at depth 0, the deeper count otherwise |
| Day21.DigitValues | src/day21.py:122 | the digit values of the code, in order |
| Day21.CodeNumberBound | src/day21.py:122 | the code's number is below 10 to the number of its digits |
| Day21.CodeNumberOf | src/day21.py:122 | the loop reads the code's digits (without the final button) as a decimal number |
| Day21.ComplexityZip | src/day21.py:121 | pairing codes with lengths stops at the end of the shorter list |
| Day21.ComplexityMonotone | src/day21.py:119-125 | pointwise larger lengths never lower the complexity |
| Day21.ComputeComplexity | src/day21.py:119-125 | `compute_complexity` is the sum of each code's number times its length |
| Day21.ShortestLengths | src/day21.py:35-39 | one length per code |
| Day21.ShortestLengthsAt | src/day21.py:35-39 | length i is the `dfs` count of code i's door-keypad indirection |
| Day21.Solve | src/day21.py:34-41 | `solve` returns the complexity of the codes with their shortest press counts |
| Day21.Part1 | src/day21.py:22-25 | part 1 uses two robot levels |
| Day21.Part2 | src/day21.py:28-31 | part 2 uses 25 robot levels |
| Day21.PartsOrdered | src/day21.py:22-31 | part 2's complexity is at least part 1's |
| Bits.ShiftLeftBits | src/day22.py:74 | bit k of `n << j` is bit k - j of n for k at least j, and clear below j |
| Bits.ShiftRightBits | src/day22.py:75 | bit k of `n >> j` is bit k + j of n |
| Bits.MaskBits | src/day22.py:11 | masking with `(1 << w) - 1` (taken modulo 2**w) keeps exactly the bits below w |
| Day22.Constants | src/day22.py:11 | the mask plus one is 0x1000000, and the shifts by 6, 5 and 11 are the products and quotients by 64, 32 and 2048 the comments name |
| Day22.PruneBit | src/day22.py:11 | pruning keeps exactly bits 0..23 of its argument |
| Day22.MixLeftBit | src/day22.py:74 | a left mix sets bit k below 24 exactly when one of bit k and bit k - j of the secret is set |
| Day22.MixRightBit | src/day22.py:75 | a right mix sets bit k below 24 exactly when one of bit k and bit k + j of the secret is set |
| Day22.Advance | src/day22.py:72-77 | every advanced secret is below 2**24 |
| Day22.AdvanceLow | src/day22.py:72-77 | advancing a secret gives the same result as advancing its low 24 bits |
| Day22.Secrets | src/day22.py:63-69 | the sequence has n + 1 entries, starts at the seed, each entry is the previous one advanced, and every entry after the seed is below 2**24 |
| Day22.SecretSequence | src/day22.py:63-69 | the loop yields exactly the seed and its n successive advances |
| Day22.OneDigits | src/day22.py:58-60 | one price per secret, each the secret's last decimal digit and below 10 |
| Day22.Prices | src/day22.py:30 | a buyer has 2001 prices, each below 10 |
| Day22.Difference | src/day22.py:52-55 | one change per neighbouring pair, each the later value minus the earlier |
| Day22.DifferenceTelescopes | src/day22.py:52-55 | the first value plus the first i changes is value i, so the changes determine the sequence from its start |
| Day22.DifferenceOfDigits | src/day22.py:52-55 | changes between prices lie in -9..9 |
| Day22.CreditAtFirst | src/day22.py:41-49 | a run of four changes fetches the price right after the first window that shows it |
| Day22.CreditAbsent | src/day22.py:41-49 | a run of four changes that no window shows fetches nothing |
| Day22.CreditBound | src/day22.py:45-48 | a buyer pays at most 9 for any run, since only the first occurrence counts |
| Day22.CreditNext | src/day22.py:45-49 | a further window adds its price to its run exactly when no earlier window showed that run |
| Day22.AddCredits | src/day22.py:39-49 | after one buyer the keys are the old keys plus the runs that buyer shows |
| Day22.AddCreditsGrows | src/day22.py:48 | no count goes down, and none goes up by more than 9 for one buyer |
| Day22.AddBananaCounts | src/day22.py:39-49 | the scan with a visited set leaves every count raised by that buyer's first-occurrence price and adds only the runs seen |
| Day22.BananaCountsBound | src/day22.py:26-34 | every total count lies between 0 and 9 times the number of buyers |
| Day22.SumLastBound | src/day22.py:16-21 | part 1 is at most the number of buyers times 2**24 - 1 |
| Day22.Part1 | src/day22.py:16-21 | the loop adds the last of each buyer's 2001 secrets |
| Day22.MaxValue | src/day22.py:36 | the result is a count in the map and no count exceeds it; there is none exactly when the map is empty |
| Day22.Part2 | src/day22.py:26-36 | the answer is the largest total a run fetches over all buyers, and is attained by some run |
| Day24.BelowIrreflexive | src/day24.py:47 | no name sorts before itself |
| Day24.BelowTransitive | src/day24.py:47 | the string order is transitive |
| Day24.BelowTotal | src/day24.py:47 | of two different names one sorts before the other |
| Day24.SortedListSpec | src/day24.py:46-51 | the sorted listing holds every name once, in strictly increasing order |
| Day24.Least | src/day24.py:47 | the scan returns a member of the set that sorts before every other member |
| Day24.SortNames | src/day24.py:47 | repeatedly taking the least name yields the sorted listing |
| Day24.Prefixed | src/day24.py:47 | exactly the names that start with the prefix are kept |
| Day24.GateNames | src/day24.py:46-47 | the gate outputs with the prefix, in sorted order |
| Day24.WireNames | src/day24.py:50-51 | the initial wires with the prefix, in sorted order |
| Day24.EvalFuel | src/day24.py:110-125 | once evaluation finishes within some fuel, any larger fuel gives the same value |
| Day24.EvalWire | src/day24.py:111-112 | an initial wire evaluates to its stored value |
| Day24.EvalGate | src/day24.py:115-125 | a gate output that evaluates has inputs that evaluate and an AND, OR or XOR operator, and its value is that operator applied to them |
| Day24.LittleEndianBits | src/day24.py:22-24 | bit i of the number read is entry i, and the number is below 2 to the number of bits |
| Day24.BinaryText | src/day24.py:23 | the text has one character per bit, most significant first, '1' for a set bit |
| Day24.BinaryRoundTrip | src/day24.py:23-24 | parsing the text in base 2 gives the number with the first bit least significant |
| Day24.Part1 | src/day24.py:15-24 | an answer exists exactly when there are z wires and all evaluate; bit i of it is the value of the i-th z wire in sorted order |
| Day24.Matching | src/day24.py:102-104 | exactly the gates with the operator that take the wire as an input |
| Day24.SoleFound | src/day24.py:100-107 | a gate found is a gate of the circuit with that operator taking the wire |
| Day24.SoleCount | src/day24.py:100-107 | no gate exactly when none match, and a failed assertion exactly when two or more match |
| Day24.GetGate | src/day24.py:100-107 | the scan answers with the one matching gate, none, or a failed assertion when several match |
| Day24.GetShared | src/day24.py:64-73 | the shared first-half-adder gate, or a failure when x and y do not share one |
| Day24.CheckFullAdder | src/day24.py:54-97 | the errors set built step by step is the set of full-adder departures, or a failure where an assertion fails |
| Day24.ZFlaggedUnlessXor | src/day24.py:76-78 | z is flagged whenever the gate driving it is not an XOR |
| Day24.IgnoreCarryFlags | src/day24.py:82-95 | with the carry checks off, the flags are a subset of those with them on, and each is z or an XOR gate output |
| Day24.FlagsAreOutputs | src/day24.py:76-95 | every flagged name is the output wire of a gate |
| Day24.CorrectAdderUnflagged | src/day24.py:54-97 | a correctly wired full adder is flagged nowhere |
| Day24.AdderFlagsFailStays | src/day24.py:39-41 | one failing bit makes the whole check fail |
| Day24.AdderFlagsOutputs | src/day24.py:38-41 | the union of the flags over the bits holds only gate outputs |
| Day24.FlaggedAreOutputs | src/day24.py:29-43 | everything part 2 reports is a gate output |
| Day24.Part2 | src/day24.py:29-43 | the result is the sorted union of every bit's flags, bit 0 without the carry checks, or a failure exactly where the source raises |
| Day25.TopRunIff | src/day25.py:38-43 | the run from the top has length n exactly when the first n cells are filled and the next, if any, is empty |
| Day25.BottomRunIff | src/day25.py:38-43 | the run from the bottom has length n exactly when the last n cells are filled and the one above, if any, is empty |
| Day25.RunsBounded | src/day25.py:38-43 | neither run is longer than the column |
| Day25.ColumnHeight | src/day25.py:36-43 | a column's height lies between -1 and one less than the column length |
| Day25.HeightsOf | src/day25.py:35-45 | five heights, each the matching run less one and each in -1..6 |
| Day25.Heights | src/day25.py:35-45 | the nested loops, stopping at the first empty cell from the top (lock) or bottom (key), yield those heights |
| Day25.FitsIffRoom | src/day25.py:48-49 | a lock and a key fit exactly when in every column the lock's run from the top and the key's run from the bottom together take at most 7 cells |
| Day25.CountKeys | src/day25.py:24-26 | no more keys fit a lock than there are keys |
| Day25.CountPairsBound | src/day25.py:22-28 | the answer is at most the number of locks times the number of keys |
| Day25.LockHeights | src/day25.py:16-18 | every lock contributes five heights |
| Day25.KeyHeights | src/day25.py:16-20 | every key contributes five heights |
| Day25.Partition | src/day25.py:16-20 | every schematic lands in exactly one of the lock and key lists |
| Day25.CountFitting | src/day25.py:24-26 | the inner loop counts the keys that fit one lock |
| Day25.Part1 | src/day25.py:14-28 | the answer is the number of (lock, key) pairs that fit, with the schematics sorted by `is_lock` |

## Left out

- Days 13 and 23 are not part of this model: day 13 hands its equations to a computer-algebra solver and day 23 to a graph library, so neither has solver logic of its own.
- Day 17's part 2 is a randomised genetic search for a register value; it is left out, and only `interpret` with part 1's output formatting is modelled.
- Input parsing (`load`, regular expressions, `split`), the puzzle download, answer submission, progress bars and timing decorators are I/O and are not modelled.
- Loops that the source runs without bound take a `fuel` parameter, and running out of fuel gives `None` or `OutOfFuel`. Where that stands in for non-termination, the model says nothing about how many rounds the source needs. This covers the day 5 repair loop, the day 6 guard walks, the day 14 tree search, the day 17 interpreter, the day 20 track following and the day 24 wire evaluation. A day 6 guard walled in on four sides spins forever in the source; it gives `None` here.
- Day 16's all-shortest-paths search and day 21's all-pairs shortest paths and distances come from a graph library. They are parameters: for day 21 with the properties the solver relies on as preconditions, for day 16 with what the solver does around them proved.
- Memoisation (`functools.cache` on days 11, 19 and 21) is not modelled; the functions are the uncached recursion, which computes the same values.
- On the inputs the model admits, where the source raises (`max` of nothing, `next` on an exhausted generator, a missing dictionary key, a failed `assert`), the model returns `None`, `Fault` or `Fails` instead of modelling the exception. Inputs outside the model's types are listed below.
- Day07.Evaluate, Day07.Solve: equations are natural numbers with at least one right-hand value. The source also reads negative numbers, where `concat` with a negative right operand raises `ValueError` (src/day7.py:47-48), and an equation with no right-hand value, where `product(repeat=-1)` raises (src/day7.py:37); neither is modelled.
- Day17.Run, Day17.Interpret, Day17.Part1: registers and program words are natural numbers. The reader accepts negative ones (src/day17.py:206). The source's floor `//` and `%` on a negative register are not modelled. Neither are negative program words: `jnz` with a negative literal sets the pointer below 0 (src/day17.py:45-47), and `program[ip]` then indexes from the end (src/day17.py:23); `bxl` with a negative literal makes b negative (src/day17.py:41); a negative opcode only moves the pointer on.
- Day11.Transform, Day11.Blink, Day11.Part1, Day11.Part2: stones are natural numbers. The reader accepts negative stones (src/day11.py:50), and `transform` treats the minus sign as a digit (src/day11.py:40-46): -5 splits into `int("-")`, which raises `ValueError`; -123 splits into -1 and 23; -12 is multiplied by 2024. None of this is modelled.
- Day22.Secrets, Day22.Part1, Day22.Part2: seeds are natural numbers. The reader accepts negative seeds (src/day22.py:81). The source would shift and xor such a seed as an infinite two's-complement value before masking (src/day22.py:73-76), and take its first price with Python's floor `s % 10` (src/day22.py:60); neither is modelled.
- Day22.AddBananaCounts: returns the updated counts as a new map rather than updating the caller's dictionary in place (src/day22.py:39-49); the result is the same, but the sharing of that dictionary between calls is not modelled.
- Day 3's regular-expression scan is not modelled; its results (mul offsets with their factors, and the marker offsets) are the inputs.
- Day 4 requires a square grid, as the source's single `grid_size` assumes.
- Day 5's `Middle` requires a non-empty update; the reader cannot produce an empty one.
- Day 9's `MoveBlocks` states that the blocks end up compacted and are a rearrangement of the layout, not which rearrangement the two pointers produce. Part 1's answer is therefore stated as the checksum of such a compacted rearrangement.
- Day 14 requires a board of positive width and height, as the floor modulo needs.
- Day 15's `WellFormed` (every "[" has its "]" to the right) is assumed by the wide-box lemmas, and its preservation across moves is not proved.
- Day 19 requires non-empty, distinct patterns. An empty pattern makes the source recurse forever, and a set's elements are distinct; the pattern set is a sequence in enumeration order.
- Day 21 requires codes to be one or more digits followed by one more numeric-pad button. The reader also turns the line `A` into a code with no digit (src/day21.py:229), on which `compute_complexity` raises `ValueError` from `int("")` (src/day21.py:122); that code is excluded, not modelled as a failure.
- Day 22's `& MASK` with `MASK = (1 << 24) - 1` is written as `% 2**24`; `Bits.MaskBits` proves the two keep the same bits.
- Day 24's wire values are booleans rather than the integers 0 and 1. Its comma-joined answer is the sorted list of names, before joining.
- Day 25 requires each schematic to be 5 columns of 7 cells, the shape the reader builds.
- Python integers are unbounded and so are Dafny's, so no width or wrap-around is modelled, except the explicit 24-bit mask of day 22. Where the model uses `nat` for a value the reader could make negative, that is listed above.
