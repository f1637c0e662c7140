# Advent of Code 2021, days 1–15, in Dafny

This project models the puzzle solvers of a Rust Advent of Code 2021 repository, one
Dafny module per day. It also proves what each solver computes. Every day's parser,
simulation or search is stated as pure functions, or as methods where the source loops
over mutable state. Each one is tied by lemmas to an independent description of the
puzzle's answer.

| module | file | day |
|---|---|---|
| `Wrappers` | wrappers.dfy | `Option` and `Result` |
| `Text` | text.dfy | the parts of Rust's `str` API the parsers use: `lines`, `split`, `trim`, `split_whitespace`, integer `parse` |
| `Grid` | grid.dfy | the digit grid that days 9, 11 and 15 each parse, with its 4- and 8-neighbours |
| `Sonar` | sonar.dfy | 1, sonar sweep: counting increases, raw and over three-reading windows |
| `Dive` | dive.dfy | 2, piloting: the course parser and the two position folds |
| `Diagnostics` | diagnostics.dfy | 3, binary diagnostic: gamma/epsilon rates and the oxygen/CO2 ratings |
| `Bingo` | bingo.dfy | 4, bingo: calling numbers, first winner, last winner, board parsing |
| `Vents` | vents.dfy | 5, hydrothermal vents: line parsing, line points, the overlap count |
| `Lanternfish` | lanternfish.dfy | 6, lanternfish: the nine-counter school and its daily step |
| `Crabs` | crabs.dfy | 7, crab alignment: the two fuel costs and the brute-force minimum |
| `Segments`, `SegmentsSample` | segments.dfy, segments_sample.dfy | 8, seven-segment search: the decoder and the output reading |
| `Basins` | basins.dfy | 9, smoke basins: low points, basin flood fill, the largest three |
| `Brackets` | brackets.dfy | 10, syntax scoring: corrupt and unfinished lines |
| `Octopus` | octopus.dfy | 11, dumbo octopus: the flash cascade of one step |
| `Caves` | caves.dfy | 12, passage pathing: the cave graph and the route count |
| `Origami` | origami.dfy | 13, transparent origami: folds along x and y, dot count, paper parsing |
| `Polymer` | polymer.dfy | 14, polymerization: the template and rule parser |
| `Chiton`, `Dijkstra` | chiton.dfy, dijkstra.dfy | 15, chiton: the heap order, the five-fold tiling, the lowest-risk search |

The main properties proved are these:
- The lanternfish counters simulate the individual fish.
- The day-8 decoder is right for every wiring and every order of the ten patterns.
- `inner` of day 12 counts exactly the routes that never re-enter a small cave once they have left it, counted with multiplicity (a route is counted once per way the neighbour lists reach it). A small cave listed as its own neighbour (an edge "a-a") can be entered twice in a row, in the model as in the source.
- The flood fill of day 9 measures exactly the basin.
- One octopus step leaves every octopus with its energy equation satisfied.
- The search of day 15 returns the least risk of any walk to the bottom-right cell.
- The parsers of bingo rows and boards, vent lines, the day-8 entries, origami points and folds, polymer rules and templates, and integers have round trips: printing a value and parsing it back gives the value again. The other parsers (sonar readings, the diagnostic report, the lanternfish school, the digit grids, the octopus grid, cave edges) are stated element by element: when they succeed and what each value read is.

Source panics (`unwrap`, `assert!`, out-of-range indexing) are preconditions. Error
returns (`anyhow!`) are `Result` values whose error names the message. Integers are
unbounded; the `Left out` section says where that matters.

## Model

| member | source | states |
|---|---|---|
| Sonar.NumIncreasing | day-1/src/main.rs:24-37 | `num_increasing`, the fold from `u32::MAX`; its contract is stated by NumIncreasingCounts: it counts exactly the readings larger than the one before |
| Sonar.NumIncreasingCounts | day-1/src/main.rs:24-37 | `num_increasing` counts exactly the readings larger than the one before them; the first never counts because the fold starts from `u32::MAX`; the count is at most len−1 |
| Sonar.IncreaseFoldCounts | day-1/src/main.rs:28-36 | the fold resumed at reading i adds exactly the increases that come after reading i |
| Sonar.IncreasesBound | day-1/src/main.rs:28-36 | a non-empty sequence has at most len−1 increases |
| Sonar.WindowSums | day-1/src/main.rs:14 | `windows(3)` summed: len−2 sums (none below three readings), each the sum of three consecutive readings |
| Sonar.WindowIncreases | day-1/src/main.rs:12-15 | a window sum grows exactly when the reading entering the window is larger than the reading three places back |
| Sonar.ParseFile | day-1/src/main.rs:39-43 | Ok exactly when every line parses as a `u32`; the values are the lines' values, in order |
| Sonar.SampleCounts | day-1/src/main.rs:9 | the ten-reading example has 7 increases |
| Sonar.SampleWindows | day-1/src/main.rs:12-15 | the example's window sums have 5 increases |
| Dive.ParseCommand | day-2/src/main.rs:19-28 | Err exactly when the number is not an `i32` or the word is not forward/down/up, and the error says which (the number is checked first); Ok carries the `i32` and the variant the word names |
| Dive.CommandRoundTrip | day-2/src/main.rs:19-28 | writing any command with an `i32` argument as "word n" and parsing it back gives the same command |
| Dive.FoldsFailTogether | day-2/src/main.rs:38-84 | both folds succeed exactly when every line is a command, and a failing course fails both folds with the same error |
| Dive.ParseAndSum | day-2/src/main.rs:38-57 | the fold without aim; SumFromTotals and ParseCourse state it ends at x = total forward and depth = total down − total up, and that it fails exactly when some line is not a command |
| Dive.SumFromTotals | day-2/src/main.rs:38-57 | without aim the fold ends at x = total forward and depth = total down − total up |
| Dive.ParseWithAim | day-2/src/main.rs:59-84 | the fold with aim; AimFromTotals and ParseCourse state its closed-form totals, and FoldsFailTogether that it fails exactly when the fold without aim does |
| Dive.AimFromTotals | day-2/src/main.rs:59-84 | with aim the fold ends at x = total forward, aim = total down − total up, and depth = the sum of aim-so-far × n over the forward commands |
| Dive.PrefixStep | day-2/src/main.rs:41-56 | one more command moves the closed-form totals of a prefix to those of the longer prefix, for both folds |
| Dive.ParseCourse | day-2/src/main.rs:38-84 | for a whole course: Ok exactly when every line is a command, both folds fail alike, and on success they give the closed-form totals of the parsed commands |
| Dive.SampleCourse | day-2/src/main.rs:89-91 | the example course ends at 15 × 10 = 150 without aim and 15 × 60 = 900 with aim |
| Diagnostics.CharToU8 | day-3/src/main.rs:65-71 | '1' and '0' are the only characters that convert, each to its own bit; any other character is an Err |
| Diagnostics.MostCommonBit | day-3/src/main.rs:73-93 | Ok exactly when every line has a '0' or '1' at the place; then '1' exactly when twice the number of ones is at least the number of lines (ties go to '1'); otherwise the error of the first line that fails |
| Diagnostics.CountFromSpec | day-3/src/main.rs:79-92 | the counting loop resumed at line i fails at the first unreadable line from i on, and otherwise compares twice the ones (so far plus remaining) with the number of lines |
| Diagnostics.LeastCommonBit | day-3/src/main.rs:95-104 | fails exactly when the most common bit fails, with the same error; otherwise it is the other bit |
| Diagnostics.ColumnBits | day-3/src/main.rs:45-54 | the gamma (or epsilon) bits: Ok exactly when every column's common bit is; one bit per column, each the column's common bit |
| Diagnostics.EpsilonComplementsGamma | day-3/src/main.rs:45-54 | epsilon succeeds exactly when gamma does, has the same length, and differs from gamma at every column |
| Diagnostics.ToNumber | day-3/src/main.rs:25-38 | `to_number`, the fold of rotated bits over the reversed list; ToNumberValue states it is the big-endian binary value for up to 32 bits |
| Diagnostics.ToNumberValue | day-3/src/main.rs:25-38 | `to_number` of at most 32 bits is the binary value with the first bit most significant |
| Diagnostics.ToNumberFromExact | day-3/src/main.rs:27-37 | the fold over the reversed bits after n of them equals the value of the first n bits shifted by the remaining places |
| Diagnostics.ComplementSum | day-3/src/main.rs:17-19 | a bit string and its complement add up to 2^len − 1 |
| Diagnostics.PowerConsumption | day-3/src/main.rs:16-18 | `power_consumption`; PowerIsGammaTimesComplement states it is gamma × (2^len − 1 − gamma) |
| Diagnostics.PowerIsGammaTimesComplement | day-3/src/main.rs:17-19 | the power consumption is gamma × (2^len − 1 − gamma) |
| Diagnostics.LifeSupport | day-3/src/main.rs:20-22 | `life_support_rating`; LifeSupportIsProduct states it is the product of the two ratings' values, and LifeRating that each rating is the bits of an input line |
| Diagnostics.LifeSupportIsProduct | day-3/src/main.rs:20-22 | `life_support_rating` is the oxygen rating's binary value times the CO2 rating's, for ratings of up to 32 bits |
| Diagnostics.Keep | day-3/src/main.rs:118-126 | the filter keeps exactly the lines long enough to have a character at the place and whose character there is the bit, and keeps no more lines than it got |
| Diagnostics.KeepFromSpec | day-3/src/main.rs:118-126 | the filter from line i keeps exactly the matching lines from i on |
| Diagnostics.RatingFrom | day-3/src/main.rs:109-129 | the filtering loop ends with at most one line, taken from its input, and does nothing to a list of one line or none |
| Diagnostics.RatingStep | day-3/src/main.rs:109-129 | with more than one line left, one turn keeps the lines matching the common bit and moves to the next place |
| Diagnostics.OxygenKeepsOne | day-3/src/main.rs:109-129 | the oxygen filter never empties a non-empty list: when it succeeds it ends with exactly one line |
| Diagnostics.Co2CanEmpty | day-3/src/main.rs:130-136 | the CO2 filter can empty the list (lines "10" and "11" keep no line with '0' first), which gives the empty-set error |
| Diagnostics.LifeRating | day-3/src/main.rs:106-137 | a rating that succeeds is the bits of one of the input lines |
| Diagnostics.LineBits | day-3/src/main.rs:130-134 | a line converts exactly when all its characters are '0' or '1', to one bit per character |
| Diagnostics.NewFromLines | day-3/src/main.rs:40-63 | no line at all is the Err "data must contain one line"; on success gamma and epsilon have the first line's length and differ at every place |
| Diagnostics.SampleGamma | day-3/src/main.rs:152-157 | the example's gamma bits are 10110 |
| Diagnostics.SampleEpsilon | day-3/src/main.rs:153-160 | the example's epsilon bits are 01001 |
| Diagnostics.SampleOxygen | day-3/src/main.rs:164 | the example's oxygen rating is the line 10111 |
| Diagnostics.SampleCo2 | day-3/src/main.rs:165 | the example's CO2 rating is the line 01010 |
| Diagnostics.SampleNumbers | day-3/src/main.rs:162-165 | the four bit strings read as 22, 9, 23 and 10 |
| Diagnostics.SampleReport | day-3/src/main.rs:166-167 | the example's power consumption is 198 and its life support rating 230 |
| Bingo.CallSquare | day-4/src/main.rs:48-54 | a square keeps its number and is marked afterwards exactly when it was marked already or the called number is its own |
| Bingo.CallNumber | day-4/src/main.rs:7-46 | every square is called; `last_move` grows by one only while the board has not won; the board has won afterwards exactly when it had or a full row or column now exists; a score, once set, never changes, and it is set to number × the unmarked sum by the call that first finds the board won |
| Bingo.HasWonStays | day-4/src/main.rs:16-30 | marks never go away, so a full row or column stays full |
| Bingo.CallKeepsConsistent | day-4/src/main.rs:7-46 | a call keeps "scored exactly when won, and won only with a full row or column", and a winning board stays a winner |
| Bingo.CallAllMarks | day-4/src/main.rs:48-54 | after a run of calls a square is marked exactly when it was already or its number was called |
| Bingo.CallAllKeepsConsistent | day-4/src/main.rs:7-46 | a run of calls keeps the board's bookkeeping consistent |
| Bingo.LastMoveIsWinTime | day-4/src/main.rs:12-14 | on a board that has not won, `last_move` after a run of calls counts exactly the calls before its first win (all of them if it never wins) |
| Bingo.WinStays | day-4/src/main.rs:12-20 | a board that has won after j calls has still won after any k ≥ j calls |
| Bingo.Round | day-4/src/main.rs:136-138 | one draw calls the number on every board, in order |
| Bingo.TopScoreFrom | day-4/src/main.rs:139 | `filter_map(score).max()`: None exactly when no board has a score, otherwise the score of some board that is at least every other score |
| Bingo.FindWinner | day-4/src/main.rs:134-144 | `find_winner`; FindWinnerIsFirst states it stops after the first draw after which some board has a score, with the top score at that point |
| Bingo.FindWinnerIsFirst | day-4/src/main.rs:134-144 | `find_winner` stops after the first draw after which some board has a score, and returns the top score at that point |
| Bingo.PlayedStep | day-4/src/main.rs:135-138 | playing one more draw is one more round on the boards so far |
| Bingo.FinalMoveFrom | day-4/src/main.rs:153-157 | the largest `last_move` among the boards: some board has it and none exceeds it |
| Bingo.LowestScoreFrom | day-4/src/main.rs:158-163 | the smallest score among the boards with that `last_move`, or None when none of them has a score |
| Bingo.Rounds | day-4/src/main.rs:147-151 | `find_loser`'s draw loop calls every number on every board |
| Bingo.FindLoser | day-4/src/main.rs:146-165 | `find_loser` returns the least score among the boards whose `last_move` is the greatest after all the draws |
| Bingo.LoserBoard | day-4/src/main.rs:146-165 | the score `find_loser` returns belongs to a board whose `last_move` after all the draws is at least every other board's |
| Bingo.WonBy | day-4/src/main.rs:12-14 | a fresh board whose `last_move` after all the draws is at most m has won within the first m draws |
| Bingo.FindLoserIsLastWinner | day-4/src/main.rs:146-165 | on fresh boards `find_loser` scores a board that first wins at some draw m by which every board that ever wins has won: the last winner |
| Bingo.NewSquare | day-4/src/main.rs:62-69 | a square parses exactly when its text is an `i32`, unmarked |
| Bingo.ParseRow | day-4/src/main.rs:83-87 | a row's words parse exactly when each is an `i32`, to one unmarked square per word in order |
| Bingo.AddRow | day-4/src/main.rs:82-93 | `add_row`; AddRowSpec states when it succeeds and what it appends, AddRowFailsAlike that its failure depends only on the line, AddRowRoundTrip that printed rows read back |
| Bingo.AddRowSpec | day-4/src/main.rs:82-93 | `add_row` succeeds exactly when every word is an `i32` and there are `row_len` of them (a bad number is reported before a bad length); it appends those squares and changes nothing else |
| Bingo.AddRowFailsAlike | day-4/src/main.rs:82-93 | whether and how `add_row` fails depends only on the line and `row_len` |
| Bingo.ReadRowsSpec | day-4/src/main.rs:106-112 | `Board::new`'s loop reads rows until five are read or an empty line is met; otherwise it fails with the error of the first row `add_row` rejects, every earlier line being an accepted row |
| Bingo.RefusedAfterRow | day-4/src/main.rs:106-112 | an accepted row in front of lines whose first rejected row is j keeps j the first rejected row |
| Bingo.AcceptedAlike | day-4/src/main.rs:82-93 | boards with the same `row_len` accept and reject the same lines, with the same error |
| Bingo.NewBoard | day-4/src/main.rs:94-114 | a board read from lines has one full row per line read (only the last line read may be empty), or the error of the first rejected row, all lines before it accepted |
| Bingo.AddRowRoundTrip | day-4/src/main.rs:82-93 | a row of `row_len` `i32`s printed with spaces is read back into exactly those unmarked squares |
| Bingo.NewBoardRoundTrip | day-4/src/main.rs:94-114 | up to five printed rows (ended by an empty line when fewer than five) are read back into exactly that board |
| Vents.NewPoint | day-5/src/main.rs:50-63 | a point is read exactly when the first two pieces are `usize`s; "no x value" exactly when the first piece is missing or not a number, otherwise "no y value" |
| Vents.ParsePieces | day-5/src/main.rs:75-77 | one parse attempt per "->"-separated piece, each trimmed and split at "," |
| Vents.LineOf | day-5/src/main.rs:78-82 | the pieces make a line exactly when all parse; then there are two and they are its start and end, otherwise the error is that of the first piece that failed |
| Vents.ParseShowPoint | day-5/src/main.rs:50-63 | a point printed as "x,y" is read back as itself |
| Vents.LineRoundTrip | day-5/src/main.rs:74-83 | a line printed as "x1,y1 -> x2,y2" is read back as itself |
| Vents.SampleFirstLine | day-5/src/main.rs:161-167 | the example's first line "0,9 -> 5,9" reads as the segment from (0, 9) to (5, 9) |
| Vents.Range | day-5/src/main.rs:89-108 | the `x_range`/`y_range` loop yields \|a - b\| + 1 coordinates, stepping one unit from a towards b |
| Vents.ToPoints | day-5/src/main.rs:88-129 | `to_points`; ToPointsShape, ToPointsDistinct, ToPointsCovers and ToPointsInBox state that for a horizontal, vertical or 45-degree line it lists each point of the segment once, from start to end, and no other |
| Vents.ToPointsShape | day-5/src/main.rs:88-129 | a supported line's points run from its start to its end, one per unit of its longer side, each coordinate moving by one unit per step while it changes |
| Vents.ToPointsDistinct | day-5/src/main.rs:88-129 | no point of a line is listed twice |
| Vents.ToPointsCovers | day-5/src/main.rs:88-129 | for horizontal, vertical and 45-degree lines, a point is listed exactly when it lies on the segment |
| Vents.ToPointsInBox | day-5/src/main.rs:88-129 | every listed point lies in the line's bounding box |
| Vents.BoundsFrom | day-5/src/main.rs:11-16 | the `(xmax, ymax)` fold bounds both ends of every line and is attained by one of them (or is 0) |
| Vents.OccurrencesOfDistinct | day-5/src/main.rs:25-27 | over distinct points, a point is counted once if listed and otherwise not at all |
| Vents.Zeros | day-5/src/main.rs:18-20 | `col_len` rows of `row_len` zero counters |
| Vents.Bump | day-5/src/main.rs:26 | one point's counter grows by one and no other changes |
| Vents.MarkLine | day-5/src/main.rs:25-27 | drawing one line adds one to the counter of each of its points and leaves every other counter alone |
| Vents.MarkFrom | day-5/src/main.rs:25-27 | after drawing a line's points each counter has grown by how often its point occurs among them |
| Vents.DrawFrom | day-5/src/main.rs:21-28 | after drawing the lines each counter has grown by the number of drawn lines through its point |
| Vents.NewFloor | day-5/src/main.rs:9-35 | the floor is large enough for every line's ends, and each counter is the number of drawn lines (diagonals only when asked) through its point |
| Vents.CountRowOverlaps | day-5/src/main.rs:39 | counting a row's counters above 1 counts the row's points that at least two drawn lines pass through |
| Vents.CountRowsOverlaps | day-5/src/main.rs:36-41 | summing the rows counts the grid points that at least two drawn lines pass through |
| Vents.FindIntersections | day-5/src/main.rs:36-41 | `find_intersections`; IntersectionsAreOverlaps states it is the number of points covered by at least two drawn lines |
| Vents.IntersectionsAreOverlaps | day-5/src/main.rs:36-41 | `find_intersections` is the number of points covered by at least two drawn lines |
| Vents.CoverageIsGeometric | day-5/src/main.rs:9-35 | for supported lines, the number of drawn lines through a point is the number of drawn segments that contain it geometrically |
| Lanternfish.BuildFrom | day-6/src/main.rs:10-18 | the read loop succeeds exactly when every remaining piece is a number; each counter then grows by the number of pieces naming its timer, and the total by the number of pieces |
| Lanternfish.AddFish | day-6/src/main.rs:13 | one fish more, at its timer's counter, and nothing else changes |
| Lanternfish.Build | day-6/src/main.rs:8-19 | `build` succeeds exactly when every comma-separated piece of the trimmed input is a number ("invalid input" otherwise); each counter is the number of fish with that timer |
| Lanternfish.StepTime | day-6/src/main.rs:21-29 | one day adds exactly as many fish as had timer 0 |
| Lanternfish.StepTimeAdds | day-6/src/main.rs:21-29 | a day on two schools together is a day on each, added counter by counter |
| Lanternfish.StepTimeSimulates | day-6/src/main.rs:21-29 | stepping the counters equals counting after every single fish has lived one day (0 restarts at 6 and spawns an 8, others count down) |
| Lanternfish.StepsSimulate | day-6/src/main.rs:35-44 | any number of `step_time` calls follows the individual fish over that many days |
| Lanternfish.StepsAdd | day-6/src/main.rs:35-44 | stepping a + b days is stepping a days and then b more, as `main` splits 256 days into 80 and 176 |
| Lanternfish.SampleHistogram | day-6/src/main.rs:56-58 | the worked school 3,4,3,1,2 is the counters 0,1,1,2,1,0,0,0,0 |
| Lanternfish.Sample18 | day-6/src/main.rs:56-63 | the worked school has 26 fish after 18 days |
| Crabs.RangeSumClosedForm | day-7/src/main.rs:15 | the fuel of a crab-walk move, `(0..=d).sum()`, is the triangle number d(d+1)/2 |
| Crabs.L1Error | day-7/src/main.rs:5-10 | `l1_error`; CostsAgree states it is zero exactly when every crab is at the guess, LeftOfAll and RightOfAll that it never rises as the guess moves towards the crabs |
| Crabs.CrabWalk | day-7/src/main.rs:12-17 | `crab_walk`; CostsAgree states it is zero exactly when every crab is at the guess and never below `l1_error`, RangeSumClosedForm that each move costs d(d+1)/2 |
| Crabs.CostsAgree | day-7/src/main.rs:5-17 | both costs are zero exactly when every crab already sits at the guess, and the crab walk never costs less than the plain distance |
| Crabs.CostsFrom | day-7/src/main.rs:5-17 | the same over the crabs from position i on |
| Crabs.MinFrom | day-7/src/main.rs:19 | the minimum position is one of the crabs and no crab is left of it |
| Crabs.MaxFrom | day-7/src/main.rs:20 | the maximum position is one of the crabs and no crab is right of it |
| Crabs.CheapestFrom | day-7/src/main.rs:21-24 | the cheapest cost over a range of guesses is attained at some guess in the range and no guess in it is cheaper |
| Crabs.MinCost | day-7/src/main.rs:18-25 | `min_cost` is the cost of some guess between the leftmost and rightmost crab, and no guess there costs less |
| Crabs.RangeSumMonotone | day-7/src/main.rs:15 | a longer crab-walk move never costs less fuel |
| Crabs.LeftOfAll | day-7/src/main.rs:5-17 | moving a guess that is left of every crab rightwards, still not past any crab, never raises either cost |
| Crabs.RightOfAll | day-7/src/main.rs:5-17 | moving a guess that is right of every crab leftwards, still not past any crab, never raises either cost |
| Crabs.Nearest | day-7/src/main.rs:18-25 | for any guess there is one between the leftmost and rightmost crab costing no more, under both cost functions |
| Crabs.MinCostIsGlobal | day-7/src/main.rs:18-25 | searching only between the extreme crabs loses nothing: `min_cost` is at most the cost of every integer guess |
| Crabs.SampleL1 | day-7/src/main.rs:48-55 | the worked positions 16,1,2,0,4,2,7,1,2,14 cost 37 at best under `l1_error` |
| Crabs.SampleCrabWalk | day-7/src/main.rs:48-56 | the same positions cost 168 at best under `crab_walk` |
| Segments.InsertSpec | day-8/src/main.rs:109-111 | inserting a letter into a sorted pattern keeps it sorted and adds exactly that letter |
| Segments.SortChars | day-8/src/main.rs:109-111 | `char_vec.sort()`: the letters of the pattern, in order, as a permutation |
| Segments.SortedUnique | day-8/src/main.rs:109-111 | two sorted strings with the same letters are equal, so sorting names a pattern independently of letter order |
| Segments.ToSet | day-8/src/main.rs:96-98 | `to_set`: a letter is in the set exactly when it is in the pattern |
| Segments.Canon | day-8/src/main.rs:108-112 | each pattern is trimmed and its letters sorted |
| Segments.Patterns | day-8/src/main.rs:106-113 | one sorted pattern per space-separated word of a half |
| Segments.Halves | day-8/src/main.rs:104 | the trimmed line split at "\|", one trimmed half per piece |
| Segments.FindLength | day-8/src/main.rs:18-31 | `find(\|o\| o.len() == n)`: the first pattern n bytes long |
| Segments.LastTaken | day-8/src/main.rs:38-78 | the variable a classification loop fills for a digit ends as a signal pattern of that length the tests put in that digit, or the empty string it starts as |
| Segments.LastTakenIsLast | day-8/src/main.rs:38-78 | that pattern is the last one the loop takes for the digit, and it stays empty exactly when no pattern is taken |
| Segments.BuildDecoder | day-8/src/main.rs:13-82 | every key of the decoder is a signal pattern, or the empty string a digit was never found for |
| Segments.ParseEntry | day-8/src/main.rs:103-130 | `from_str` keeps the sorted patterns of both halves and the decoder built from the first |
| Segments.GetOutput | day-8/src/main.rs:86-93 | `get_output` is below 10000 and its decimal digits, thousands first, are the decoded output patterns (0 past the last pattern read) |
| Segments.EasyFrom | day-8/src/main.rs:137-143 | the easy patterns counted in an output are at most its patterns |
| Segments.EasyChars | day-8/src/main.rs:133-146 | `easy_chars`, summed over the entries; EasyCharsOfDisplays states it counts the shown 1s, 4s, 7s and 8s |
| Segments.KeyContains | day-8/src/main.rs:44-65 | on any wiring, one digit's pattern letters lie inside another's exactly when its segments do |
| Segments.KeyDifferenceContained | day-8/src/main.rs:39-72 | on any wiring, the set differences the tests use contain each other exactly when the segment differences do |
| Segments.SixLetterSegments | day-8/src/main.rs:38-52 | among 0, 6 and 9, "8 minus 7 inside" picks out 6 and "4 inside" picks out 9 |
| Segments.FiveLetterSegments | day-8/src/main.rs:64-78 | among 2, 3 and 5, "inside 6" picks out 5 and "8 minus 4 inside" picks out 2 |
| Segments.Classify | day-8/src/main.rs:38-78 | the digit a loop of `build_decoder` takes a pattern for; SixLetterRight and FiveLetterRight state that on any wiring it takes each six- and five-letter pattern for its own digit |
| Segments.SixLetterRight | day-8/src/main.rs:38-52 | on any wiring the six-letter loop puts the patterns of 0, 6 and 9 in their own digit |
| Segments.FiveLetterRight | day-8/src/main.rs:64-78 | on any wiring the five-letter loop puts the patterns of 2, 3 and 5 in their own digit |
| Segments.KeysDiffer | day-8/src/main.rs:13-82 | on any wiring distinct digits have distinct patterns |
| Segments.KeyBytes | day-8/src/main.rs:18-31 | on ASCII wires the byte length `len()` of a digit's pattern is its number of letters |
| Segments.KeyLength | day-8/src/main.rs:14-33 | pattern lengths 2, 3, 4 and 7 belong to 1, 7, 4 and 8 alone; 6 letters to 0, 6, 9 and 5 letters to 2, 3, 5 |
| Segments.FoundByLength | day-8/src/main.rs:14-33 | when only one digit has n segments, the first n-letter signal pattern is that digit's |
| Segments.LengthsFound | day-8/src/main.rs:14-33 | on a scrambled display none of the four `unwrap`s fails, and they find the patterns of 1, 4, 7 and 8 |
| Segments.SixLettersFound | day-8/src/main.rs:34-55 | on a scrambled display the loop finds the patterns of 6, 9 and 0 |
| Segments.FiveLettersFound | day-8/src/main.rs:59-81 | on a scrambled display the loop finds the patterns of 2, 3 and 5 |
| Segments.BuildsWiredDecoder | day-8/src/main.rs:13-82 | on a scrambled display the decoder is exactly the map from each digit's pattern to the digit |
| Segments.DecoderIsCorrect | day-8/src/main.rs:13-82 | `build_decoder` maps every digit's pattern to that digit, whatever the wiring of seven distinct ASCII wires and the order of the ten patterns |
| Segments.CanonIsKey | day-8/src/main.rs:108-112 | a word is read as a digit's pattern exactly when it holds the same letters, in any order |
| Segments.ParseRender | day-8/src/main.rs:103-130 | an entry printed as "signal \| output" is read back as its sorted patterns with the decoder of the signal |
| Segments.EasyKey | day-8/src/main.rs:139-142 | on ASCII wires a pattern is counted as easy exactly when it shows 1, 4, 7 or 8 |
| Segments.EasyFromDisplay | day-8/src/main.rs:133-146 | the easy patterns of a displayed output are the 1s, 4s, 7s and 8s it shows |
| Segments.EasyCharsOfDisplays | day-8/src/main.rs:133-146 | over entries whose outputs are displays, each by its own wiring of seven ASCII wires, `easy_chars` is the number of 1s, 4s, 7s and 8s shown |
| Segments.Decode | day-8/src/main.rs:83-85 | `decode`, the decoder's digit of a pattern; PlacesOfDisplay states that with a right decoder each place reads the digit shown there |
| Segments.PlacesOfDisplay | day-8/src/main.rs:86-93 | with a right decoder each place reads the digit shown there |
| Segments.ReadsDisplayedNumber | day-8/src/main.rs:86-93 | on a scrambled display `get_output` is the four-digit number shown |
| Segments.ReadsRenderedDisplay | day-8/src/main.rs:100-131 | a printed entry of any scrambled display is parsed and read as the number it shows |
| SegmentsSample.SampleScrambled | day-8/src/main.rs:178-180 | the worked signal is the ten patterns of one wiring |
| SegmentsSample.Sample5353 | day-8/src/main.rs:176-195 | the worked entry reads 5353 |
| Grid.DivMod | day-9/src/main.rs:55-67 | quotient and remainder by the row length are unique, which the row and column tests rely on |
| Grid.Coords | day-9/src/main.rs:55-67 | an index is its row times the row length plus its column; it is inside the grid, past the first row, or in the last row exactly when its row is |
| Grid.Toward | day-9/src/main.rs:55-69 | at most one cell lies one given step away |
| Grid.TowardFacts | day-9/src/main.rs:55-69 | the cell one step away is listed exactly when it is on the grid and reached by that step, never wrapping round a row edge |
| Grid.TowardAllFacts | day-9/src/main.rs:52-72 | trying distinct steps lists distinct cells, exactly the on-grid cells reached by one of them |
| Grid.ReversedPermutes | day-9/src/main.rs:117 | `rev()` keeps every entry, as often as it was there |
| Grid.Neighbors4 | day-9/src/main.rs:52-72 | `get_neighbors` of days 9 and 15 is the left, right, up and down steps tried in that order |
| Grid.Neighbors4Spec | day-15/src/main.rs:81-101 | the 4-neighbours are exactly the on-grid cells one row or one column away, none twice and not the cell itself |
| Grid.Neighbors4Inside | day-15/src/main.rs:81-101 | every 4-neighbour is on the grid |
| Grid.Neighbors8 | day-11/src/main.rs:60-97 | `get_neighbors` of day 11 is the eight surrounding steps tried in its order |
| Grid.Neighbors8Pieces | day-11/src/main.rs:60-97 | each of day 11's edge tests pushes exactly the cell of the matching step when that cell is on the grid |
| Grid.Neighbors8Spec | day-11/src/main.rs:60-97 | the 8-neighbours are exactly the on-grid cells that touch the cell, diagonals included, none twice and not the cell itself |
| Grid.NeighborsSymmetric | day-11/src/main.rs:60-97 | q is a neighbour of p exactly when p is one of q, for both neighbour relations |
| Grid.DigitsOf | day-9/src/main.rs:22-36 | a line of ASCII digits becomes one value 0..9 per character |
| Grid.FirstNonDigit | day-9/src/main.rs:25-34 | the first position that is not an ASCII digit, or none when every character is one |
| Grid.ParseRows | day-9/src/main.rs:21-42 | the row loop succeeds exactly when every line is digits of the first line's length, stacking the digits row after row; otherwise it reports a bad character or a bad row length |
| Grid.Parse | day-9/src/main.rs:12-48 | `from_str` succeeds exactly when there is a line and all lines are digit rows of the first line's length; no line is "empty string"; the grid has one row per line holding that line's digits |
| Grid.ParsedCellsAreDigits | day-11/src/main.rs:16-56 | every cell of a parsed grid is 0..9 |
| Grid.CellsBelow | day-9/src/main.rs:74-77 | the cell indices of the grid, as a set of the right size |
| Basins.Around | day-9/src/main.rs:52-72 | a cell's neighbours are on the grid and are exactly its 4-adjacent cells |
| Basins.AloneIffSingleCell | day-9/src/main.rs:79-85 | a cell has no neighbour (so `min().unwrap()` panics) exactly when the grid has one cell |
| Basins.NeighborHeights | day-9/src/main.rs:81-83 | the heights of the neighbours, in order |
| Basins.MinOf | day-9/src/main.rs:84-85 | `min()` is one of the heights and no other is lower |
| Basins.LowPointIff | day-9/src/main.rs:79-90 | being below the smallest neighbour height is being below every neighbour |
| Basins.LowFromMembers | day-9/src/main.rs:74-93 | the low points listed from i on are exactly the cells from i on lower than all their neighbours |
| Basins.LowPoints | day-9/src/main.rs:74-93 | `get_low_points` lists, in increasing order, exactly the cells lower than every neighbour |
| Basins.RiskOf | day-9/src/main.rs:125-128 | the risk of n cells (height + 1 each) is at least n, and at most 10n on a digit map |
| Basins.RiskLevel | day-9/src/main.rs:123-129 | part one's sum is at least the number of low points |
| Basins.ExtendWalk | day-9/src/main.rs:101-104 | a neighbour of a basin cell that is not 9 is in the basin |
| Basins.ClosedHoldsBasin | day-9/src/main.rs:99-106 | a visited set that contains the start and every non-9 neighbour of its cells contains the whole basin |
| Basins.BasinSize | day-9/src/main.rs:95-108 | `get_basin_size` is exactly the number of cells reachable from the start through 4-neighbours that are not 9 |
| Basins.FreshMembers | day-9/src/main.rs:101-103 | the neighbours the loop pushes are exactly those that are not 9 and not yet visited |
| Basins.VisitLast | day-9/src/main.rs:99-105 | one pop keeps the visited set and stack inside the basin and closed, and makes progress |
| Basins.PushNeighbours | day-9/src/main.rs:101-105 | the stack grows by unvisited basin cells, and every non-9 neighbour is now visited or stacked |
| Basins.PushFresh | day-9/src/main.rs:101-105 | the `for` loop leaves the stack followed by the fresh neighbours, in neighbour order |
| Basins.InsertAscendingSpec | day-9/src/main.rs:116 | inserting into an ascending list keeps it ascending and adds exactly that entry |
| Basins.SizesOf | day-9/src/main.rs:111-115 | the `map` gives, in order, the size of the basin of each low point |
| Basins.SortAscending | day-9/src/main.rs:116 | `sort()`: an ascending permutation |
| Basins.AllBasins | day-9/src/main.rs:110-118 | `get_all_basins` is the basin sizes of the low points, as a permutation, largest first |
| Basins.TopThreeIsLargest | day-9/src/main.rs:130-136 | on sizes sorted largest first, part two's product is at least the product of any three basins |
| Brackets.Partner | day-10/src/main.rs:26-38 | `get_partner` maps each opener to a closer and each closer to an opener |
| Brackets.PartnerInvolution | day-10/src/main.rs:12-38 | partnering twice gives the bracket back, never itself, and no bracket both opens and closes |
| Brackets.ScoresDistinguishClosers | day-10/src/main.rs:40-57 | both score tables tell the four closers apart, and completion scores lie in 1..4 |
| Brackets.Step | day-10/src/main.rs:62-76 | one character of the scan keeps the stack made of openers |
| Brackets.ScanLine | day-10/src/main.rs:60-79 | scanning a whole line ends in a well-formed state |
| Brackets.ScanFromAppend | day-10/src/main.rs:62-77 | scanning a + b is scanning b from the state a ends in |
| Brackets.CorruptIsFinal | day-10/src/main.rs:71-74 | once a wrong closer is met, nothing after it changes the outcome (the early `return`) |
| Brackets.SkipsOthers | day-10/src/main.rs:62-66 | characters that are not brackets are skipped |
| Brackets.CorruptIffIllegal | day-10/src/main.rs:60-79 | a line is corrupt exactly when some closer meets an empty stack or a non-matching opener after a clean prefix; that position is unique and its character is the one reported |
| Brackets.IsCorrupted | day-10/src/main.rs:60-79 | `is_corrupted` is Some exactly when the line has an illegal closer, and then it is that closer's corruption score |
| Brackets.Completion | day-10/src/main.rs:104-107 | the completion string has one closer per open bracket |
| Brackets.CompletionCloses | day-10/src/main.rs:104-107 | appending the completion string empties the stack |
| Brackets.StackScoreIsBase5 | day-10/src/main.rs:103-109 | the fold over the reversed stack is the base-5 number whose digits are the completion string's scores |
| Brackets.Base5Grows | day-10/src/main.rs:108 | the fold never goes below its start and is positive on a non-empty completion |
| Brackets.CloserOfScore | day-10/src/main.rs:49-55 | each completion score 1..4 belongs to one closer |
| Brackets.Base5RoundTrip | day-10/src/main.rs:108 | the completion string can be read back from its score, digit by digit |
| Brackets.IsUnfinished | day-10/src/main.rs:81-111 | `is_unfinished` is None exactly for corrupt and for complete lines; otherwise it is the base-5 number whose digits are the completion string's scores, which is positive and reads back as that string, and that string closes the line |
| Brackets.SampleLine1 | day-10/src/main.rs:145-154 | the worked unfinished line "[({(<(())[]>[[{[]{<()<>>" scores 288957 |
| Brackets.SampleLine3 | day-10/src/main.rs:134-143 | the worked corrupt line "{([(<{}[<>[]}>{[]{[(<()>" scores 1197 |
| Brackets.SampleLine9 | day-10/src/main.rs:134-143 | the worked corrupt line "<{([([[(<>()){}]>(<<{{" scores 25137 |
| Octopus.Parse | day-11/src/main.rs:16-56 | the octopus grid parses exactly when the digit grid does, with the same error otherwise; each octopus has its digit as energy and has not flashed |
| Octopus.Around | day-11/src/main.rs:60-97 | an octopus's neighbours are distinct, on the grid, not itself, and exactly the octopuses that touch it, diagonals included |
| Octopus.AroundSymmetric | day-11/src/main.rs:60-97 | q touches p exactly when p touches q |
| Octopus.CountInGrows | day-11/src/main.rs:106-108 | one more flashed octopus raises a neighbour list's count of flashed octopuses by one exactly when it is in the list and had not flashed |
| Octopus.DistinctOnce | day-11/src/main.rs:106-108 | a neighbour list pushes each octopus at most once |
| Octopus.Indices | day-11/src/main.rs:100 | `(0..len).collect()` lists every octopus once, in order |
| Octopus.TrackingStarts | day-11/src/main.rs:100 | the starting stack, every octopus once, meets the step's invariant: each octopus's pending touches plus its energy account for its final energy |
| Octopus.Touch | day-11/src/main.rs:101-112 | one pop keeps the invariant and either flashes a new octopus or shortens the stack with the flashed set unchanged |
| Octopus.FlashForced | day-11/src/main.rs:104-111 | an octopus pushed past 9 by the flashes every closed set must contain must itself be in every closed set, so `touch` only flashes octopuses that have to flash |
| Octopus.TouchFlashed | day-11/src/main.rs:103 | popping an octopus that has flashed changes nothing |
| Octopus.TouchRaised | day-11/src/main.rs:104-105 | popping an octopus that stays at 9 or below raises its energy by one |
| Octopus.TouchFlashes | day-11/src/main.rs:105-111 | popping an octopus that passes 9 resets it to 0, marks it flashed and pushes all its neighbours |
| Octopus.FlashCount | day-11/src/main.rs:115 | the count of octopuses marked as flashed |
| Octopus.Step | day-11/src/main.rs:99-119 | `step` returns the number of octopuses left at 0, at most all of them; the octopuses at 0 are exactly the least set closed under flashing (every octopus whose energy + 1 + flashed neighbours passes 9 is in it); every other octopus has that sum as its energy; all flags are cleared |
| Octopus.Settled | day-11/src/main.rs:115-118 | once the stack is empty, clearing the flags leaves the flashed octopuses, and only they, at 0: the outcome of a step |
| Octopus.SteppedUnique | day-11/src/main.rs:99-119 | a step has one outcome: two grids that both satisfy the energy equations with the least closed flash set are equal |
| Octopus.SteppedClosed | day-11/src/main.rs:104-111 | after a step no octopus outside the flashed set is left above 9 |
| Octopus.Run | day-11/src/main.rs:126-127 | `(0..n).map(\|_\| step()).sum()` is n steps in a row, each with the one outcome of a step, and the total is the sum of their flash counts, at most n times the octopuses |
| Caves.Upper | day-12/src/main.rs:18 | `to_uppercase` keeps the length and upper-cases each character (ASCII letters only) |
| Caves.BigIffNoLowerCase | day-12/src/main.rs:18 | a name equals its upper-case form exactly when it has no lower-case letter |
| Caves.NewCave | day-12/src/main.rs:15-21 | `Cave::new` keeps the name, has no neighbours, and is big exactly when the name has no lower-case letter |
| Caves.BuildKeys | day-12/src/main.rs:76-92 | the system holds exactly the caves some edge mentions |
| Caves.BuildEntry | day-12/src/main.rs:82-91 | each cave's neighbour list holds, edge by edge in order, the other end of every edge it ends |
| Caves.BuildSpec | day-12/src/main.rs:74-94 | the built system has exactly the mentioned caves, each with its name, its size and its neighbours in edge order |
| Caves.ParseEdge | day-12/src/main.rs:77-80 | an edge line is accepted exactly when "-" splits it in two; the halves joined by "-" give the line back; otherwise "invalid edge descriptor" for that line |
| Caves.ParseEdges | day-12/src/main.rs:76-80 | all lines are read as edges, or the error of the first line that is not one |
| Caves.Parse | day-12/src/main.rs:74-94 | `from_str` succeeds exactly when every line is one "a-b" edge, and then builds the system of those edges |
| Caves.NeighboursMentioned | day-12/src/main.rs:82-91 | every neighbour a cave is given is a name some edge mentions |
| Caves.BuildShape | day-12/src/main.rs:74-94 | a built system keys each cave by its own name and lists only caves it holds as neighbours |
| Caves.ParseNavigableShape | day-12/src/main.rs:74-94 | a parsed system meets the first two demands `count_routes` makes: each cave is keyed by its name and every neighbour is a cave of the system |
| Caves.Unvisited | day-12/src/main.rs:46-50 | the neighbours kept are exactly those not yet visited, in order and without repeats when the list had none |
| Caves.MeasureDrops | day-12/src/main.rs:54-60 | every recursive call of `inner` is on a smaller measure, so the recursion ends |
| Caves.Inner | day-12/src/main.rs:42-64 | `inner`; InnerCounts states it returns the number of routes RoutesSound and RoutesComplete characterise |
| Caves.InnerCounts | day-12/src/main.rs:42-64 | `inner` returns the number of routes it explores |
| Caves.RoutesSound | day-12/src/main.rs:42-64 | every route explored starts at the current cave, ends at "end", and enters no visited cave; a small cave is entered again only straight after itself, through its own edge "x-x" |
| Caves.RoutesComplete | day-12/src/main.rs:42-64 | every such route is explored |
| Caves.RoutesDistinct | day-12/src/main.rs:42-64 | when no neighbour is listed twice, no route is explored twice |
| Caves.CountRoutes | day-12/src/main.rs:39-68 | `count_routes`, `inner` from "start" with nothing visited; CountRoutesIsRoutes states which routes it counts |
| Caves.CountRoutesIsRoutes | day-12/src/main.rs:39-68 | `count_routes` is the number of routes from "start" to "end" that never re-enter a small cave once they have left it, counted with multiplicity; each is counted once when no cave lists a neighbour twice (no repeated edge and no edge "x-x", which lists its cave twice) |
| Origami.AfterLast | day-13/src/main.rs:18-24 | `rsplit("=").next()`: the longest suffix without "=", which follows the last "=" when there is one |
| Origami.AfterSeparator | day-13/src/main.rs:18-24 | the piece after the last separator is the text that follows it |
| Origami.ParseFold | day-13/src/main.rs:16-32 | an instruction parses exactly when it starts with "fold along y" or "fold along x" and the text after the last "=" is a `usize`; the prefix decides the axis; any other start is "invalid instruction format" |
| Origami.ParseShowFold | day-13/src/main.rs:16-32 | "fold along y=n" and "fold along x=n" are read back as the folds they print |
| Origami.Overlay | day-13/src/main.rs:45-52 | overlaying keeps the first row's length; a cell is a dot when it is one in either row (cells past the second row's end count as blank) |
| Origami.FoldRow | day-13/src/main.rs:56-73 | `fold_row` is as long as the longer side of the fold line, and each cell j is the OR of the cells j + 1 to the right of and j + 1 to the left of the line |
| Origami.FoldRowRight | day-13/src/main.rs:59-63 | when the right side is longer, the swap of the two sides gives the same mirrored OR |
| Origami.FoldRowLeft | day-13/src/main.rs:64-72 | when the left side is at least as long, the reversed left side zipped with the right gives the mirrored OR |
| Origami.FoldUp | day-13/src/main.rs:36-54 | `fold_y` keeps as many rows as the longer side of the fold line; each kept row is a row off the line, OR-ed with its mirror image across the line when that exists |
| Origami.FoldYUpper | day-13/src/main.rs:36-54 | when the upper side is the longer, row k is row k OR-ed with row 2y - k when that exists |
| Origami.FoldLeft | day-13/src/main.rs:75-82 | `fold_x` folds every row the same way and keeps the number of rows |
| Origami.CountDots | day-13/src/main.rs:84-89 | `count_dots`; CountDotsIsDotSet states it is the number of dot coordinates |
| Origami.CountDotsIsDotSet | day-13/src/main.rs:84-89 | `count_dots` is the number of dot coordinates |
| Origami.FoldLeftDots | day-13/src/main.rs:75-82 | a fold along x never creates dots |
| Origami.FoldUpDots | day-13/src/main.rs:36-54 | a fold along y never creates dots |
| Origami.Apply | day-13/src/main.rs:91-97 | one fold instruction, along y or x; FoldUp, FoldLeft, FoldUpDots and FoldLeftDots state its shape and that it adds no dots |
| Origami.Fold | day-13/src/main.rs:91-97 | `fold` with no instruction left changes nothing; otherwise it applies the first instruction and drops it; it never adds dots |
| Origami.ApplyAllDots | day-13/src/main.rs:99-103 | applying any number of folds never adds dots |
| Origami.FoldAll | day-13/src/main.rs:99-103 | `fold_all` applies every instruction in order and leaves none; it never adds dots |
| Origami.ParsePoint | day-13/src/main.rs:110-116 | `to_tup` reads a line exactly when "," splits it into two `usize`s |
| Origami.ParseShowPoint | day-13/src/main.rs:110-116 | "x,y" is read back as (x, y) |
| Origami.PointsSpec | day-13/src/main.rs:133 | the points are exactly the lines that read as points |
| Origami.InstructionsSpec | day-13/src/main.rs:136-139 | the instructions are exactly the lines that read as folds |
| Origami.MaxOf | day-13/src/main.rs:117-128 | `max()` is one of the values and no value exceeds it |
| Origami.Blank | day-13/src/main.rs:129-131 | a blank sheet of the given height and width |
| Origami.Plot | day-13/src/main.rs:133-135 | plotting keeps the sheet's shape and makes a cell a dot exactly when it was one or is a point |
| Origami.ParsePaper | day-13/src/main.rs:109-141 | `Paper::from_str` is one row per y up to the largest y and one cell per x up to the largest x; a cell is a dot exactly when its point is listed; the instructions are those of the fold lines, in order |
| Origami.Sheet | day-13/src/main.rs:117-135 | the sheet of a list of points is sized by their largest coordinates and has a dot exactly at each point |
| Polymer.TemplateLines | day-14/src/main.rs:13-17 | the first pass keeps only non-empty lines without "->" |
| Polymer.RuleLines | day-14/src/main.rs:22 | the second pass keeps only non-empty lines with "->" |
| Polymer.FilterAppend | day-14/src/main.rs:13-22 | both passes distribute over a concatenation of lines |
| Polymer.RuleOf | day-14/src/main.rs:23-28 | a rule line that passes the asserts is its two-character pair, " -> " and its one inserted character |
| Polymer.RulesOf | day-14/src/main.rs:22-30 | one rule per rule line, in order |
| Polymer.InsertRulesSpec | day-14/src/main.rs:27-29 | with no pair given twice (the `is_none` assert), the map holds one entry per rule, keyed by its pair and holding its character |
| Polymer.Parse | day-14/src/main.rs:12-35 | `Polymer::from_str`; FromLines states its template and rules, ReadBack that a printed polymer reads back as itself |
| Polymer.FromLines | day-14/src/main.rs:12-35 | the template is the one template line of the input, and the rules map has exactly one entry per rule line with that line's character |
| Polymer.TemplateIsALine | day-14/src/main.rs:13-20 | the template is one of the input lines |
| Polymer.ShowRuleReads | day-14/src/main.rs:22-28 | a rule written "AB -> C" is a rule line and reads back as (AB, C) |
| Polymer.ReadBack | day-14/src/main.rs:12-35 | a template, a blank line and printed rules pass every assert and read back as that template and a map holding exactly those rules |
| Polymer.AllRules | day-14/src/main.rs:13-22 | rule lines are all kept by the second pass and none by the first |
| Chiton.Cmp | day-15/src/main.rs:14-31 | the heap order of states; CmpSpec and CmpTransitive state it ranks cheaper states (then larger positions) higher and is a strict total order |
| Chiton.CmpSpec | day-15/src/main.rs:14-31 | a state ranks above another exactly when it is cheaper, or as cheap at a larger position; it ranks equal only to itself; swapping the arguments flips the answer |
| Chiton.CmpTransitive | day-15/src/main.rs:14-24 | the state order is transitive, strictly so when either step is strict |
| Chiton.RolledAdd | day-15/src/main.rs:106-113 | `rolled_add`; RolledAddSpec states it keeps risk levels in 1..9, wrapping 9 round to 1 |
| Chiton.RolledAddSpec | day-15/src/main.rs:106-113 | `rolled_add` by 0 changes nothing; on risk levels 1..9 with a shift up to 9 it stays in 1..9 and wraps 9 round to 1; two shifts add up modulo 9 |
| Chiton.AddAll | day-15/src/main.rs:125-130 | every risk level of a tile rolled by the same amount |
| Chiton.FlattenUniform | day-15/src/main.rs:123-131 | `flatten` of equal-length parts puts entry m of part k at k × length + m |
| Chiton.RowCells | day-15/src/main.rs:117 | the slice `floor[row * row_len..(row + 1) * row_len]` is exactly row `row` |
| Chiton.RowTilesAt | day-15/src/main.rs:115-121 | a widened row holds cell c of the original row, rolled up by j, in its j-th tile |
| Chiton.YTilerAt | day-15/src/main.rs:114-122 | `y_tiler` stacks the widened rows, one after another |
| Chiton.TileAt | day-15/src/main.rs:123-131 | the i-th vertical copy of `y_tiler` holds its cells rolled up by i |
| Chiton.Tile | day-15/src/main.rs:103-138 | `tile`; TileShape, TileCell and TileOnce state its size, the rolled-up value of every cell, and that one tile changes nothing |
| Chiton.TileShape | day-15/src/main.rs:103-138 | the tiled cave is n times as wide and n times as tall and well formed, with n² times as many cells |
| Chiton.TileCell | day-15/src/main.rs:103-138 | cell c of row r in the tile i tiles down and j tiles across holds the original cell rolled up by j and then by i |
| Chiton.TileOnce | day-15/src/main.rs:103-138 | tiling a digit map once gives the same map |
| Chiton.TileCoords | day-15/src/main.rs:103-138 | every cell of the tiled cave is in exactly one tile, at one row and column of the original |
| Chiton.TileRange | day-15/src/main.rs:103-138 | tiling a map of risk levels 1..9 up to ten times keeps every level in 1..9 |
| Dijkstra.CostExtend | day-15/src/main.rs:160-163 | entering one more cell adds its risk level to a walk's risk |
| Dijkstra.WalkExtend | day-15/src/main.rs:158-164 | a walk followed by a neighbour of its last cell is a walk whose risk grows by that neighbour's level |
| Dijkstra.CostPrefix | day-15/src/main.rs:160-163 | no prefix of a walk is riskier than the walk |
| Dijkstra.StepRight | day-15/src/main.rs:85-87 | a cell that is not last in its row and its right neighbour are neighbours both ways |
| Dijkstra.StepDown | day-15/src/main.rs:93-95 | a cell above the last row and the cell below it are neighbours both ways |
| Dijkstra.GoalCorner | day-15/src/main.rs:153 | the goal `floor.len() - 1` is the bottom-right cell |
| Dijkstra.ToGoal | day-15/src/main.rs:139-167 | from every cell some walk reaches the goal |
| Dijkstra.Reachable | day-15/src/main.rs:139-167 | a walk of at least two cells from the start to the goal exists exactly when the cave has at least two cells |
| Dijkstra.Beside | day-15/src/main.rs:81-101 | on a cave of two cells or more the goal has a neighbour |
| Dijkstra.NoStepAlone | day-15/src/main.rs:81-101 | on a one-cell cave no cell has a neighbour |
| Dijkstra.Greatest | day-15/src/main.rs:151 | `BinaryHeap::pop` takes the state that ranks above every other, which is no costlier than any state in the heap |
| Dijkstra.PushesSpec | day-15/src/main.rs:158-163 | the states pushed from a cell are exactly its neighbours, each at the cell's risk plus its own level |
| Dijkstra.Exit | day-15/src/main.rs:147-164 | a walk from the start to an open cell steps from a visited cell to an open one somewhere |
| Dijkstra.Lower | day-15/src/main.rs:151-164 | under the search invariant no walk to an open cell costs less than the cheapest state in the heap |
| Dijkstra.Pending | day-15/src/main.rs:151 | while a walk to an open cell exists the heap is not empty |
| Dijkstra.Initially | day-15/src/main.rs:140-149 | seeding the heap with the start's neighbours and visiting the start sets up the search invariant |
| Dijkstra.DropVisited | day-15/src/main.rs:156 | popping a state whose cell was already visited keeps the invariant |
| Dijkstra.VisitKeeps | day-15/src/main.rs:156-164 | visiting the cheapest state's cell and pushing its neighbours keeps the invariant |
| Dijkstra.VisitSettled | day-15/src/main.rs:156-157 | the risk a cell is first popped with is the least risk of any walk to it |
| Dijkstra.VisitFrontier | day-15/src/main.rs:158-163 | after a visit every open neighbour of a visited cell is in the heap at the right risk |
| Dijkstra.VisitWitnessed | day-15/src/main.rs:158-163 | every pushed state is the end and the risk of a real walk |
| Dijkstra.Reach | day-15/src/main.rs:158-163 | a pushed state's walk is the popped state's walk extended by its cell; other states keep theirs |
| Dijkstra.Turn | day-15/src/main.rs:151-165 | one pop either returns the least risk of a walk to the goal, or keeps the invariant and drops a state or visits one more cell |
| Dijkstra.GoalIsLowest | day-15/src/main.rs:151-154 | the state popped at the goal carries the lowest risk of any walk there |
| Dijkstra.LowestRisk | day-15/src/main.rs:139-167 | `dijkstra_alg` returns Some exactly when the cave has two cells or more; then it is the risk of some walk to the bottom-right cell and no such walk is less risky; None means no walk of two cells or more exists |
| Text.ParseUnsigned | day-6/src/main.rs:11 | `parse::<usize>()` (and `u32`) accepts exactly an optional "+" and one or more decimal digits whose value is below the type's limit |
| Text.ParseShowNat | day-13/src/main.rs:115 | a number printed in decimal parses back to itself when it fits the type |
| Text.ParseI32 | day-4/src/main.rs:64 | `parse::<i32>()` yields a value within the `i32` range, negative only after "-" |
| Text.ParseShowInt | day-4/src/main.rs:64 | an `i32` printed in decimal parses back to itself |
| Text.Split | day-5/src/main.rs:76 | `split(sep)` yields at least one piece, none containing the separator, and joining the pieces with it gives the text back |
| Text.SplitJoin | day-13/src/main.rs:111 | pieces free of the separator's first character, joined with it, split back into the same pieces |
| Text.ByteLenAscii | day-8/src/main.rs:18 | `str::len` counts one to four bytes a character, and equals the character count exactly when the text is ASCII |
| Text.Lines | day-9/src/main.rs:14 | `lines()` yields lines without a newline |
| Text.StripCarriageReturn | day-9/src/main.rs:14 | a line loses at most one trailing "\r" |
| Text.TrimStart | day-6/src/main.rs:10 | trimming the front removes exactly the leading whitespace |
| Text.TrimEnd | day-6/src/main.rs:10 | trimming the back removes exactly the trailing whitespace |
| Text.SplitWhitespace | day-4/src/main.rs:84-85 | `split_whitespace` yields non-empty words without whitespace |
| Text.SplitWhitespaceJoin | day-4/src/main.rs:84-85 | words joined by single spaces split back into the same words |

## Left out

- `main` of every day, `include_str!` of the puzzle inputs and all printing: there is no I/O in the model.
- The tests that read data files (`test.txt`, `test_1.txt` and similar) which are not part of this model: the day-5 counts 5 and 12 and the line count 10 (the first line's parse to (0,9)→(5,9) is proved as `SampleFirstLine`), the day-8 easy count 26, the day-9 answers 15 and 1134, the day-10 totals 26397 and 288957 over the whole file, the day-11 total 1656, the day-12 counts 10, 19 and 226, the day-13 sheets and counts 17 and 16, and the day-15 risks 40 and 315. Where the sample is spelled out in the puzzle text, single lines or schools of it are proved instead (days 1, 2, 3, 6, 7, 8 and 10).
- Bingo: the day-4 sample answers 4512 and 1924 are not proved, because evaluating three full boards over the draw sequence is beyond what the verifier unfolds.
- Brackets: three of the ten lines of the day-10 example are restated and scored (`SampleLine1`, `SampleLine3`, `SampleLine9`). The other seven lines are not, and neither are the sum 26397 or the median 288957 over the whole example, because each line's scan is a long literal unfolding.
- Lanternfish: the 80-day and 256-day totals (5934 and 26984457539) are not proved. They are too deep to evaluate; the 18-day total 26 is proved.
- Octopus: part two of `main`, the first step where all octopuses flash, is not modelled. Its loop need not end.
- Fixed-width integers are unbounded: `u32` risk and fuel sums, the `u64` lanternfish counters, the `i32` position sums of day 2, the bingo scores, the `u32` `to_number` of day 3 and its gamma×epsilon and oxygen×CO2 products, the `u32` overlap counters of day 5, the `u64` completion-score fold of day 10 and the `u64` flash total of day 11 do not wrap or panic on overflow in the model. `usize` and `i32` parsing does check the type's range.
- Sonar.NumIncreasingCounts: requires every reading to fit in a `u32`. The window sums are unbounded, where the source's `u32` sum of three readings can overflow.
- Dijkstra.LowestRisk: risks are `nat`, so the `u32` cost addition of the source cannot overflow in the model.
- Crabs.MinCost: the `u32` costs and the `checked_abs().unwrap()` of `i32` differences are unbounded integers, so no guess panics.
- `BinaryHeap` and `HashSet`/`HashMap` are modelled by multisets, sets and maps. Their iteration order matters in one place only, the heap's pop, and that is the maximum under the source's `Ord`.
- Caves: `count_routes` requires that no big cave anywhere in the system is next to a big cave (itself included). The source recurses forever only when such a pair can be reached from "start". An unreachable pair is harmless in the source, but the model excludes it too.
- Segments.DecoderIsCorrect: proved for wirings of ASCII wires only. A wire character of two or more UTF-8 bytes changes the byte lengths the source's `len()` tests compare, and the decoder then misses patterns, as the source's would.
- Caves: the `part` argument of `count_routes` is unused by the source and is not a parameter.
- Caves.Upper: only ASCII letters change case. Rust's `to_uppercase` also maps other alphabets.
- Origami: sheet cells are booleans (a dot or not). The source stores only '#' and '.', so its `unreachable!()` arms cannot be reached.
- Origami.ParseFold: the "invalid fold instruction" errors after `rsplit("=").next()` are not modelled, because `rsplit` always yields a first piece.
- Polymer: malformed input makes `Polymer::from_str` panic on an `assert!`, so well-formedness is a precondition (`Readable`).
- Bingo.FindLoser: in `main` and the test, `find_loser` runs on boards already played by `find_winner`. The model states `find_loser` on any boards and proves it finds the last winner on fresh boards. The composition with an earlier `find_winner` is not proved.
- The row width of the grid days and the bit count of day 3 are the byte length of the first line in the source, and a character count in the model. They agree: a non-ASCII character in the first line fails as a non-digit (or a non-bit) before the two counts could differ. Day 8 does use byte lengths (`ByteLen`), since its `len()` tests pick the patterns.
- The texts of `anyhow!` messages are not modelled. The error values name which message it is, and the row and position where the message carries them.
