# Advent of Code 2021 solvers, modelled in Dafny

This project models the puzzle solvers of an Advent of Code 2021 repository written in C#. Each day's
`DayN.cs` holds one class that reads a puzzle input, computes an answer and prints it. The model keeps the
computing part of every day and proves what each day's code promises about its answer. Reading files,
parsing text into records and printing are left out.

It is laid out by the repository's days, one module per source file. Days with a large core are split into
several modules.

- `DayOne` to `Day17` are the sonar sweep, submarine commands, binary diagnostic, bingo (`DayFour`,
  `DayFourGame`, `DayFourPlay`), vents, lanternfish (`Day6` and its first version `DaySix`), crabs,
  seven-segment displays, smoke basins, syntax scoring, octopuses, cave paths, origami, polymers (`Day14`
  and the linked-list version `Day14Bad`), Chiton paths (`Day15` and the depth-first `Day15_Bad`), the
  BITS decoder (`Day16`, `Day16Read`) and the trick shot.
- `Day18`, `Day18Text`, `Day18Reduce` and `Day18Search` model snailfish numbers. Trees are values, and
  paths replace the parent pointers.
- `Day19` covers the beacon scanner's integer helpers only.
- `Day20` is image enhancement over an unbounded plane.
- `Day21` is Dirac dice, with a deterministic die and the memoised count of quantum outcomes.
- `Day22`, `Day22Tree` and `Day22Reactor` model the reactor. They cover cube splitting and the octree of
  lit cubes.
- `Day23`, `Day23Routes`, `Day23Steps` and `Day23Search` model amphipod sorting.
  - The board and its hash are modelled, along with the legal moves.
  - `BuildShortestPathContext` is the best-first search. It is proved to return the least cost of any
    route to a finished burrow.
- `Day24` is the ALU. It covers instruction semantics with C#'s truncating `/` and `%`, chunking, and the
  fast chunk shortcut proved against the instructions.
- `Day25` and `Day25Map` model sea cucumbers. The in-place moves on a `char[,]` are proved equal to
  moving each herd all at once.
- `Common` holds `Option`/`Result`, C#'s truncating division, `int.Parse`, decimal and binary numerals,
  sums and powers. `Counting` holds the dictionary tallies several days share.

Objects whose fields the C# updates in place are Dafny classes. This covers the bingo boards, the fish age
tallies, the cave graph and its search state, the amphipod map and shortest-path context, the ALU input
queue and reader, and the cucumber map. Their methods are proved against value-level functions. The other
days are functions and lemmas over datatypes. A C# exception is an `Err` result, except where noted below.

One note on Day23. The puzzle's rules let an amphipod in a room move straight into its home room. The
code does not generate such moves: `FindValidMoves` (`AdventOfCode/Day23/Day23.cs:290-315`) moves a room's
top token only to a reachable hallway stop. The model follows the code.

## Model

| member | source | states |
|---|---|---|
| DayOne.GetWindows | AdventOfCode/DayOne/DayOne.cs:35-52 | there are max(0, n - w + 1) windows and window i is the w consecutive measurements starting at index i |
| DayOne.CountIncreases | AdventOfCode/DayOne/DayOne.cs:55-70 | the count is the number of positions whose measurement exceeds the one before it |
| DayOne.CountWindows | AdventOfCode/DayOne/DayOne.cs:16-33 | the count is the number of windows whose sum exceeds the previous window's sum |
| DayOne.WindowSums | AdventOfCode/DayOne/DayOne.cs:39 | one sum per window start, max(0, n - w + 1) of them |
| DayOne.IncreasesBound | AdventOfCode/DayOne/DayOne.cs:61-67 | a list of n >= 1 measurements has at most n - 1 increases |
| DayOne.WindowsOfOne | AdventOfCode/DayOne/DayOne.cs:16-52 | with window size 1 the window sums are the measurements, so CountWindows(m, 1) equals CountIncreases(m) |
| DayOne.WindowStep | AdventOfCode/DayOne/DayOne.cs:24-29 | the next window's sum is larger exactly when the value entering it exceeds the value leaving it |
| DayOne.IncreasesPrefix | AdventOfCode/DayOne/DayOne.cs:61-67 | extending the list by one value adds one increase exactly when that value exceeds its predecessor |
| DayOne.IncreasesShiftedOf | AdventOfCode/DayOne/DayOne.cs:24-29 | when each rise of the sums matches a rise between measurements w apart, the two counts are equal |
| DayOne.WindowIncreasesShifted | AdventOfCode/DayOne/DayOne.cs:16-33 | counting window-sum increases equals counting the i with m[i + w] > m[i] |
| DayTwo.Position.ApplyCommand | AdventOfCode/DayTwo/DayTwo.cs:20-28 | forward moves the horizontal position by the distance, up and down move the depth, and the aim is untouched |
| DayTwo.Position.ApplyCommandWithAim | AdventOfCode/DayTwo/DayTwo.cs:30-46 | up and down change only the aim; forward adds the distance to the horizontal position and distance times aim to the depth |
| DayTwo.ApplyCommand | AdventOfCode/DayTwo/DayTwo.cs:107-115 | the DayTwo class's static ApplyCommand agrees with Position.ApplyCommand on every position and command |
| DayTwo.FoldTotals | AdventOfCode/DayTwo/DayTwo.cs:58-63 | after folding a command list, the horizontal position has grown by the sum of the forward distances under either rule, and the depth (the other rule: the aim) by the net down minus up distance |
| DayTwo.Navigate | AdventOfCode/DayTwo/DayTwo.cs:58-63 | the loop from (0, 0, 0) applying ApplyCommandWithAim ends at the fold of the commands, with horizontal position the forward total and aim the vertical total |
| DayTwo.FirstSpace | AdventOfCode/DayTwo/DayTwo.cs:87 | the index of the first space, or the length when there is none |
| DayTwo.Tokens | AdventOfCode/DayTwo/DayTwo.cs:87 | splitting on spaces with empty entries removed yields only non-empty words without spaces |
| DayTwo.TokensOfWords | AdventOfCode/DayTwo/DayTwo.cs:87 | two words joined by one space split back into exactly those two words |
| DayTwo.FirstSpaceOfWord | AdventOfCode/DayTwo/DayTwo.cs:87 | the first space after a space-free prefix is at the end of that prefix |
| DayTwo.Lower | AdventOfCode/DayTwo/DayTwo.cs:96 | lower-casing keeps the length |
| DayTwo.LowerUnchanged | AdventOfCode/DayTwo/DayTwo.cs:96 | a word without capital letters is its own lower case |
| DayTwo.ParseDirection | AdventOfCode/DayTwo/DayTwo.cs:96-102 | succeeds exactly on "forward", "up" and "down", and the direction's name is the word |
| DayTwo.ParseCommand | AdventOfCode/DayTwo/DayTwo.cs:85-105 | a line succeeds exactly when it has two tokens, the first lower-cases to forward, up or down and int.Parse reads the second, so the direction is matched case-insensitively; on success the direction is that lower-cased token and the distance that number |
| DayTwo.IntToStringWord | AdventOfCode/DayTwo/DayTwo.cs:104 | the decimal form of an integer is a single word |
| DayTwo.ParseFormatRoundTrip | AdventOfCode/DayTwo/DayTwo.cs:85-105 | parsing the text of a command whose distance fits an int gives that command back |
| DayTwo.ParseDirectionName | AdventOfCode/DayTwo/DayTwo.cs:96-102 | the name of each direction parses to that direction |
| Day3.BinaryDigitsToInt | AdventOfCode/Day3/Day3.cs:32-47 | the loop over the reversed digits, doubling the shifter, yields the binary value of the digit string ('1' digits count, any other character counts as 0) |
| Day3.ComplementSum | AdventOfCode/Day3/Day3.cs:20-21 | a binary string and its bitwise flip add up to 2^n - 1 |
| Day3.ColumnDigitTally.constructor | AdventOfCode/Day3/Day3.cs:151 | a new column tally is empty |
| Day3.ColumnDigitTally.GetCount | AdventOfCode/Day3/Day3.cs:153-161 | returns the digit's count, 0 when absent, and leaves the digit present with that count |
| Day3.ColumnDigitTally.CountDigit | AdventOfCode/Day3/Day3.cs:163-171 | the digit's count rises by one, starting from 0 when absent; no other digit changes |
| Day3.Touch | AdventOfCode/Day3/Day3.cs:179-187 | getting a column adds its index to the tally with an empty column when absent and changes no existing column |
| Day3.AllColumnsTally.constructor | AdventOfCode/Day3/Day3.cs:177 | a new tally holds no columns |
| Day3.AllColumnsTally.GetColumn | AdventOfCode/Day3/Day3.cs:179-187 | returns the column object at the index; an absent index gets a fresh empty column and nothing else changes |
| Day3.TallyDigit | AdventOfCode/Day3/Day3.cs:127-131 | counting one digit bumps exactly that column's count of that digit |
| Day3.TallyLine | AdventOfCode/Day3/Day3.cs:123-132 | the inner loop counts each digit of a line in its own column |
| Day3.TallyDiagnosticLines | AdventOfCode/Day3/Day3.cs:117-136 | the result's abstract counts are the tally of all lines, in fresh column objects |
| Day3.TallyDigitsAt | AdventOfCode/Day3/Day3.cs:123-132 | counting one line adds a column for each of its indices and adds one to the count of digit c in column i exactly when the line has c at i |
| Day3.TallyLinesCounts | AdventOfCode/Day3/Day3.cs:117-136 | the tally has a column for each index below the longest line's length, and column i counts c as the number of lines with c at index i |
| Day3.ZerosPlusOnes | AdventOfCode/Day3/Day3.cs:117-136 | for lines of n binary digits, the zeros and ones of each column add up to the number of lines |
| Day3.UniformTally | AdventOfCode/Day3/Day3.cs:117-136 | for non-empty lines of n binary digits the tally's columns are exactly 0..n-1, each with zeros plus ones equal to the line count |
| Day3.UniformMaxLength | AdventOfCode/Day3/Day3.cs:125 | the longest of a non-empty list of n-digit lines has n digits |
| Day3.Ascending | AdventOfCode/Day3/Day3.cs:83 | OrderBy on the keys: the same elements, strictly increasing, one per key |
| Day3.DigitRules | AdventOfCode/Day3/Day3.cs:98-106 | gamma gives '1' exactly when ones >= zeros, otherwise '0'; epsilon always gives the flipped gamma digit |
| Day3.Assess | AdventOfCode/Day3/Day3.cs:79-96 | one digit per column of the tally |
| Day3.AssessColumn | AdventOfCode/Day3/Day3.cs:85-92 | the digit is the assessor's verdict on the column's zeros and ones, and the only change is that the column now records both digits |
| Day3.AssessPrefix | AdventOfCode/Day3/Day3.cs:83-93 | n digits after n columns |
| Day3.AssessStep | AdventOfCode/Day3/Day3.cs:83-93 | settling earlier columns changes neither a later column's counts nor its digit |
| Day3.KeysOfAscending | AdventOfCode/Day3/Day3.cs:83 | the ascending keys list each key of the tally once |
| Day3.AssessPrefixStep | AdventOfCode/Day3/Day3.cs:92 | each column appends exactly its own digit |
| Day3.AssessNext | AdventOfCode/Day3/Day3.cs:83-93 | one loop turn yields the next column's digit from the original counts |
| Day3.AssessDone | AdventOfCode/Day3/Day3.cs:83-95 | walking all ascending keys yields Assess |
| Day3.SettledDone | AdventOfCode/Day3/Day3.cs:83-93 | after the loop every column has both digits recorded, and nothing else has changed |
| Day3.AssessDigits | AdventOfCode/Day3/Day3.cs:79-96 | the digits are the assessor applied to each column in ascending index order; the column objects stay, and their side effect is recording '0' and '1' |
| Day3.GetGammaRateDigits | AdventOfCode/Day3/Day3.cs:98-101 | AssessDigits with the most-common-digit rule, ties going to '1' |
| Day3.GetEpsilonRateDigits | AdventOfCode/Day3/Day3.cs:103-106 | AssessDigits with the least-common-digit rule, ties going to '0' |
| Day3.SettleKeepsDigits | AdventOfCode/Day3/Day3.cs:17-18 | the side effect of GetGammaRateDigits does not change what GetEpsilonRateDigits then reads |
| Day3.GammaEpsilonSum | AdventOfCode/Day3/Day3.cs:17-21 | gamma is binary, epsilon is its flip digit for digit, and the two rates add up to 2^n - 1 |
| Day3.GammaOfUniform | AdventOfCode/Day3/Day3.cs:15-17 | for n-digit binary lines gamma has n digits, '1' exactly where at least half the lines have a one |
| Day3.AscendingRange | AdventOfCode/Day3/Day3.cs:83 | the ascending keys 0..n-1 are listed in place |
| Day3.RangeSize | AdventOfCode/Day3/Day3.cs:83 | the key set 0..n-1 has n elements |
| Day3.AscendingIndex | AdventOfCode/Day3/Day3.cs:83 | a strictly increasing list of n values below n holds k at position k |
| Day3.AscendingLower | AdventOfCode/Day3/Day3.cs:83 | in a strictly increasing list of naturals, position k holds at least k |
| Day3.AscendingUpper | AdventOfCode/Day3/Day3.cs:83 | in a strictly increasing list of n values below n, position k holds at most k |
| Day3.KeepMeaning | AdventOfCode/Day3/Day3.cs:68 | the filter throws exactly when some line or the rating is too short; otherwise it keeps exactly the lines agreeing with the rating at index i, as many as have that digit there |
| Day3.IterativePrune | AdventOfCode/Day3/Day3.cs:59-77 | the loop's result is Prune: the rating rounds stopping at the first single line, the "more than one matching value" error after the last digit, and the Linq errors for no input or a short line |
| Day3.GetOxygenGeneratorRating | AdventOfCode/Day3/Day3.cs:49-52 | IterativePrune with the gamma rule |
| Day3.GetCo2ScrubberRating | AdventOfCode/Day3/Day3.cs:54-57 | IterativePrune with the epsilon rule |
| Day3.PruneFromInput | AdventOfCode/Day3/Day3.cs:63-74 | any rating the rounds return is one of their input lines |
| Day3.PruneInput | AdventOfCode/Day3/Day3.cs:59-77 | any rating IterativePrune returns is one of the input lines |
| Day3.KeepAllOrNone | AdventOfCode/Day3/Day3.cs:68 | on identical lines the filter keeps all of them or none |
| Day3.AllSameFrom | AdventOfCode/Day3/Day3.cs:63-76 | identical lines, other than a single one, never narrow to one line |
| Day3.AllSameThrows | AdventOfCode/Day3/Day3.cs:59-77 | two or more identical lines make IterativePrune throw |
| Day3.UniformRound | AdventOfCode/Day3/Day3.cs:65-68 | on n-digit binary lines a round never fails and keeps n-digit binary lines |
| Day3.UniformFrom | AdventOfCode/Day3/Day3.cs:63-76 | on n-digit binary lines the only error of the rounds is "more than one matching value" |
| Day3.UniformThrowsOnlyForNoMatch | AdventOfCode/Day3/Day3.cs:59-77 | on non-empty n-digit binary lines IterativePrune fails only with "more than one matching value" |
| DayFour.Fresh | AdventOfCode/DayFour/DayFour.cs:44-58 | a new board has the given shape and every entry is number 0, unmarked |
| DayFour.Mark | AdventOfCode/DayFour/DayFour.cs:60-72 | marking keeps the board's shape |
| DayFour.MarkSpec | AdventOfCode/DayFour/DayFour.cs:60-72 | marking changes no number, and an entry is marked afterwards exactly when it was already marked or holds the called number |
| DayFour.MarkAll | AdventOfCode/DayFour/DayFour.cs:159-165 | marking a list of numbers keeps the board's shape |
| DayFour.MarkAllSpec | AdventOfCode/DayFour/DayFour.cs:159-165 | after marking a list of numbers, an entry is marked exactly when it was marked before or its number is in the list |
| DayFour.MarkAllStep | AdventOfCode/DayFour/DayFour.cs:159-165 | marking one more called number extends the marked prefix by one |
| DayFour.MarkAllNone | AdventOfCode/DayFour/DayFour.cs:159 | marking no numbers leaves the board as it was |
| DayFour.RowMarkedSpec | AdventOfCode/DayFour/DayFour.cs:102-109 | the row scan is true exactly when the first w entries of row h are marked |
| DayFour.ColumnMarkedSpec | AdventOfCode/DayFour/DayFour.cs:119-126 | the column scan is true exactly when the first h entries of column w are marked |
| DayFour.SomeRowSpec | AdventOfCode/DayFour/DayFour.cs:100-114 | the row loop finds a win exactly when some row among the first h is fully marked |
| DayFour.SomeColumnSpec | AdventOfCode/DayFour/DayFour.cs:117-131 | the column loop finds a win exactly when some column among the first w is fully marked |
| DayFour.SomeRowUp | AdventOfCode/DayFour/DayFour.cs:100-114 | a full row found early stays found as the scan goes on |
| DayFour.SomeColumnUp | AdventOfCode/DayFour/DayFour.cs:117-131 | a full column found early stays found as the scan goes on |
| DayFour.WonSpec | AdventOfCode/DayFour/DayFour.cs:95-135 | IsWon holds exactly when some row or some column is fully marked |
| DayFour.WonGrows | AdventOfCode/DayFour/DayFour.cs:95-135 | a board with the same numbers and at least the marks of a won board is won |
| DayFour.MarkKeepsWon | AdventOfCode/DayFour/DayFour.cs:60-72 | marking never un-wins a board |
| DayFour.MulAdd | AdventOfCode/DayFour/DayFour.cs:86 | multiplication distributes over a sum of counts |
| DayFour.RowUnmarkedAfterMark | AdventOfCode/DayFour/DayFour.cs:80-89 | marking n lowers a row's unmarked sum by n for every entry it newly marks |
| DayFour.UnmarkedRowsAfterMark | AdventOfCode/DayFour/DayFour.cs:80-89 | marking n lowers the unmarked sum of the first h rows by n per newly marked entry |
| DayFour.UnmarkedAfterMark | AdventOfCode/DayFour/DayFour.cs:60-93 | after MarkNumber(n), UnmarkedSum drops by n times the number of entries newly marked |
| DayFour.FirstWin | AdventOfCode/DayFour/DayFour.cs:159-168 | the first round from `from` on after which the board is won, or none when no such round exists |
| DayFour.WinRound | AdventOfCode/DayFour/DayFour.cs:159-168 | the round in which the board wins lies among the draws |
| DayFour.WinRoundSpec | AdventOfCode/DayFour/DayFour.cs:159-168 | a board wins in round k exactly when it was not won at the start, is won once draws 0..k are marked, and was not won after any earlier prefix |
| DayFour.StateAfter | AdventOfCode/DayFour/DayFour.cs:159-168 | the board after r rounds of FindWinningBoards keeps its shape |
| DayFour.StateAfterClosed | AdventOfCode/DayFour/DayFour.cs:159-168 | after r rounds a board is unchanged when it started won, holds the draws up to its winning round when it has won, and holds all r draws otherwise |
| DayFour.NotYetWon | AdventOfCode/DayFour/DayFour.cs:163-166 | a board that has not won before round r is not won, is marked with draw r, and is won afterwards exactly when r is its winning round |
| DayFour.StateAfterWon | AdventOfCode/DayFour/DayFour.cs:159-168 | after r rounds a board is won exactly when it started won or won in a round before r |
| DayFour.StateAfterStart | AdventOfCode/DayFour/DayFour.cs:159 | before any round every board is as given |
| DayFour.StateAfterStep | AdventOfCode/DayFour/DayFour.cs:163-166 | a board not yet won becomes won in round r exactly when r is its winning round |
| DayFour.StateAfterSettled | AdventOfCode/DayFour/DayFour.cs:163 | a won board is never marked again, so its state is final |
| DayFour.Rounds | AdventOfCode/DayFour/DayFour.cs:159-168 | each board's winning round, board by board |
| DayFour.StatesAfter | AdventOfCode/DayFour/DayFour.cs:159-176 | one state per board after r rounds |
| DayFour.StatesAfterIndex | AdventOfCode/DayFour/DayFour.cs:159-176 | board i's state after r rounds is StateAfter of board i |
| DayFour.Played | AdventOfCode/DayFour/DayFour.cs:161-175 | one state per board part-way through round k |
| DayFour.PlayedIndex | AdventOfCode/DayFour/DayFour.cs:161-175 | part-way through round k at board j, the boards before j have had k + 1 rounds and the rest k |
| DayFour.PlayedTurn | AdventOfCode/DayFour/DayFour.cs:163-168 | board j's turn marks it unless it is won, changes no other board, and makes it a new winner exactly when round k is its winning round |
| DayFour.PlayedEnds | AdventOfCode/DayFour/DayFour.cs:161-175 | a round that has visited every board leaves the states after k + 1 rounds |
| DayFour.StatesAtStart | AdventOfCode/DayFour/DayFour.cs:159 | no rounds leave the boards as given |
| DayFour.MarkedAll | AdventOfCode/DayFour/DayFour.cs:183-193 | one Play state per board after r rounds |
| DayFour.MarkedAllIndex | AdventOfCode/DayFour/DayFour.cs:183-193 | in Play, board i after r rounds is marked with the first r draws |
| DayFour.MarkedUpTo | AdventOfCode/DayFour/DayFour.cs:185-192 | one Play state per board part-way through round k |
| DayFour.MarkedUpToIndex | AdventOfCode/DayFour/DayFour.cs:185-192 | in Play part-way through round k at board j, boards before j hold k + 1 draws and the rest k |
| DayFour.MarkedTurn | AdventOfCode/DayFour/DayFour.cs:187 | board j's turn in Play marks board j with draw k and no other board |
| DayFour.MarkedEnds | AdventOfCode/DayFour/DayFour.cs:185-192 | a Play round over every board leaves every board marked with k + 1 draws |
| DayFour.MarkedAtStart | AdventOfCode/DayFour/DayFour.cs:183 | before Play's first round the boards are as given |
| DayFour.RoundWinners | AdventOfCode/DayFour/DayFour.cs:161-168 | the winners of round k among the first j boards are indices below j |
| DayFour.WinnersBefore | AdventOfCode/DayFour/DayFour.cs:159-176 | the winners of the first k rounds are board indices |
| DayFour.RoundWinnersOrder | AdventOfCode/DayFour/DayFour.cs:161-168 | the winners of round k are listed in board order with their winning number, each won in round k |
| DayFour.WinnersBeforeOrder | AdventOfCode/DayFour/DayFour.cs:159-176 | the winners of the first k rounds are in winning order (by round, then by board) and each won before round k |
| DayFour.OrderAppend | AdventOfCode/DayFour/DayFour.cs:168 | appending round k's winners to the earlier rounds' winners keeps winning order |
| DayFour.WinnersInOrder | AdventOfCode/DayFour/DayFour.cs:155-179 | the winning boards list is in winning order, each entry holds the number that completed it, and no board appears twice |
| DayFour.RoundWinnersComplete | AdventOfCode/DayFour/DayFour.cs:161-168 | a board below j that wins in round k is among round k's winners |
| DayFour.WinnersBeforeComplete | AdventOfCode/DayFour/DayFour.cs:159-176 | a board that wins before round k is listed, with the number of its winning round |
| DayFour.WinnersComplete | AdventOfCode/DayFour/DayFour.cs:155-179 | every board that ever wins is in the winning boards list with its winning number |
| DayFour.RoundWinnersTail | AdventOfCode/DayFour/DayFour.cs:161-168 | boards that do not win in round k add nothing to its winners |
| DayFour.WinnersBeforeTail | AdventOfCode/DayFour/DayFour.cs:169-172 | once every winning round lies before k, later rounds add no winners |
| DayFour.WinnersBeforeSkip | AdventOfCode/DayFour/DayFour.cs:169-172 | a round in which nobody can win adds no winners |
| DayFour.Settled | AdventOfCode/DayFour/DayFour.cs:169-172 | when every board is won part-way through round k, all winning rounds lie behind and the boards are already in their final state, so the early return changes nothing |
| DayFour.WinnersSettled | AdventOfCode/DayFour/DayFour.cs:169-172 | when every winning round lies behind, the winners so far are all the winners |
| DayFour.NoneWonNext | AdventOfCode/DayFour/DayFour.cs:183-193 | a Play round in which no board wins extends "nobody has won yet" by one round |
| DayFour.InRoundTurn | AdventOfCode/DayFour/DayFour.cs:161-168 | one FindWinningBoards turn on values keeps the round invariant and reports a new win exactly for boards whose winning round is k |
| DayFour.CallingTurn | AdventOfCode/DayFour/DayFour.cs:185-191 | one Play turn on values: the boards become those of the turn after j, and a win after marking is the first win of the game, otherwise the game goes on |
| DayFourGame.BingoBoard.constructor | AdventOfCode/DayFour/DayFour.cs:44-58 | a new board of fresh entries, number 0 and unmarked |
| DayFourGame.BingoBoard.SetNumber | AdventOfCode/DayFour/DayFour.cs:259 | only the number of entry (h, w) changes |
| DayFourGame.BingoBoard.MarkNumber | AdventOfCode/DayFour/DayFour.cs:60-72 | the board afterwards is Mark of the board before |
| DayFourGame.BingoBoard.UnmarkedSum | AdventOfCode/DayFour/DayFour.cs:74-93 | the sum of the unmarked numbers |
| DayFourGame.BingoBoard.IsWon | AdventOfCode/DayFour/DayFour.cs:95-135 | true exactly when the board is Won, that is, when some row or column is fully marked |
| DayFourGame.Footprint | AdventOfCode/DayFour/DayFour.cs:24-34 | the objects of all boards |
| DayFourGame.Models | AdventOfCode/DayFour/DayFour.cs:24-34 | the value of each board, in order |
| DayFourGame.Report | AdventOfCode/DayFour/DayFour.cs:168 | one WinningBoard per winner, naming the board object and its number |
| DayFourGame.ReportAppend | AdventOfCode/DayFour/DayFour.cs:168 | adding a winner appends its WinningBoard |
| DayFourGame.AllWon | AdventOfCode/DayFour/DayFour.cs:169 | true exactly when every board is won |
| DayFourGame.TakeTurn | AdventOfCode/DayFour/DayFour.cs:163-167 | a won board is skipped; otherwise only board j is marked; the result says whether that turn won it |
| DayFourGame.MarkOne | AdventOfCode/DayFour/DayFour.cs:165 | MarkNumber on board j changes only board j |
| DayFourPlay.FindWinningBoards | AdventOfCode/DayFour/DayFour.cs:155-179 | the list is every winning board in winning order with the number that won it, and each board ends in its state after all the rounds (the early return included) |
| DayFourPlay.FindRound | AdventOfCode/DayFour/DayFour.cs:161-175 | one round keeps the rounds invariant, or returns early only when all later rounds add nothing |
| DayFourPlay.FindStep | AdventOfCode/DayFour/DayFour.cs:163-174 | one board's turn keeps the round invariant |
| DayFourPlay.AllDone | AdventOfCode/DayFour/DayFour.cs:169-172 | when every board is won the list so far is the final list |
| DayFourPlay.RoundStarts | AdventOfCode/DayFour/DayFour.cs:161 | a round begins in the state left by the earlier rounds |
| DayFourPlay.RoundEnds | AdventOfCode/DayFour/DayFour.cs:161-175 | a round over every board leaves the state after k + 1 rounds |
| DayFourPlay.ReportStep | AdventOfCode/DayFour/DayFour.cs:168 | one more board adds its WinningBoard exactly when round k is its winning round |
| DayFourPlay.Play | AdventOfCode/DayFour/DayFour.cs:181-196 | a result names the first board to win (earliest round, then first board in that round) with its number, and the boards up to and including it then hold the draws up to that number while the later ones hold the earlier draws; no result means no board ever won and every board holds all draws |
| DayFourPlay.PlayRound | AdventOfCode/DayFour/DayFour.cs:185-192 | a round of Play stops at the first board it wins |
| DayFourPlay.PlayTurn | AdventOfCode/DayFour/DayFour.cs:187-190 | one Play turn marks board j and reports whether it is won |
| DayFourPlay.CallEnds | AdventOfCode/DayFour/DayFour.cs:185-192 | a Play round without a winner leaves every board marked with k + 1 draws |
| Day5.IntSpan | AdventOfCode/Day5/Day5.cs:147-168 | the values from start to end inclusive, one apart, rising when end > start and falling otherwise |
| Day5.GetIntSpan | AdventOfCode/Day5/Day5.cs:147-168 | the two counting loops build exactly IntSpan(start, end) |
| Day5.Zip | AdventOfCode/Day5/Day5.cs:140 | pairs the coordinates position by position, as long as the shorter list |
| Day5.GetSpan | AdventOfCode/Day5/Day5.cs:119-144 | fails exactly for a line that is neither horizontal, vertical nor diagonal |
| Day5.StraightSpan | AdventOfCode/Day5/Day5.cs:121-134 | a horizontal line covers exactly the points between its x ends at its y, |dx| + 1 of them; a vertical one likewise along y |
| Day5.DiagonalSpan | AdventOfCode/Day5/Day5.cs:135-141 | a diagonal line runs from its start to its end, point i being i steps from the start along each axis |
| Day5.LineMap.constructor | AdventOfCode/Day5/Day5.cs:174 | a new map has no points |
| Day5.LineMap.MarkPoint | AdventOfCode/Day5/Day5.cs:176-184 | the point's count rises by one, from 0 when absent, and no other count changes |
| Day5.HistogramSnoc | AdventOfCode/Day5/Day5.cs:176-184 | marking one more point adds one to its count in the tally of the marked points |
| Day5.MarkSpan | AdventOfCode/Day5/Day5.cs:61-64 | marking a span adds its points to the tally |
| Day5.MarkSelected | AdventOfCode/Day5/Day5.cs:53-85 | the map's counts are the tally of the spans of the selected lines |
| Day5.MarkLines | AdventOfCode/Day5/Day5.cs:53-68 | each point's count is the number of times the horizontal and vertical lines cover it |
| Day5.MarkLinesWithDiagonal | AdventOfCode/Day5/Day5.cs:70-85 | each point's count is the number of times the horizontal, vertical and diagonal lines cover it |
| Day5.MarkedCounts | AdventOfCode/Day5/Day5.cs:17-19 | a point's count is its multiplicity among the spans, and the counts add up to the number of span points |
| Day5.DiagonalsOnlyAdd | AdventOfCode/Day5/Day5.cs:53-85 | the diagonal pass covers every point at least as often as the straight pass, and both agree when no line is only diagonal |
| Day6.FishAges.constructor | AdventOfCode/Day6/Day6.cs:38 | a new tally is empty |
| Day6.FishAges.AddToKey | AdventOfCode/Day6/Day6.cs:71-79 | adds the value to the key's count, starting from 0 when absent; no other key changes |
| Day6.InitializeFishAges | AdventOfCode/Day6/Day6.cs:36-46 | the tally counts how many fish have each timer |
| Day6.StepLookup | AdventOfCode/Day6/Day6.cs:48-69 | a day moves the count at timer a + 1 to a; timer 6 receives the fish at 0 and at 7, timer 8 those at 0 and at 9; no timer reaches -1 |
| Day6.StepAddCount | AdventOfCode/Day6/Day6.cs:52-66 | the day is linear: adding fish before it adds their successors after it |
| Day6.StepAddCountLookups | AdventOfCode/Day6/Day6.cs:52-66 | the linearity of the day, count by count |
| Day6.StepAddCountKeys | AdventOfCode/Day6/Day6.cs:52-66 | the linearity of the day, key by key |
| Day6.StepKeysAt | AdventOfCode/Day6/Day6.cs:52-66 | timer a is present after the day exactly when a + 1 (other than 0) was, or 0 was and a is 6 or 8 |
| Day6.StepLookupAt | AdventOfCode/Day6/Day6.cs:52-66 | the count at timer a after the day is NextCount |
| Day6.StepAddCountAt | AdventOfCode/Day6/Day6.cs:57-65 | the linearity of the day at one timer |
| Day6.StepTotal | AdventOfCode/Day6/Day6.cs:48-69 | a day adds exactly the fish at timer 0 to the population |
| Day6.StepKeepsRange | AdventOfCode/Day6/Day6.cs:57-65 | timers in 0..8 stay in 0..8 |
| Day6.GetNextIteration | AdventOfCode/Day6/Day6.cs:48-69 | whatever order the dictionary is walked in, the new tally is the day Step of the old one |
| Day6.StepNGrows | AdventOfCode/Day6/Day6.cs:81-91 | over n days non-negative counts of timers 0..8 stay so, and the population never shrinks |
| Day6.GetFishAgesByDayCount | AdventOfCode/Day6/Day6.cs:81-91 | the tally after max(0, dayCount) days; for no days the very dictionary given is returned |
| DaySix.ListStep | AdventOfCode/DaySix/DaySix.cs:81-101 | a day never shrinks the list |
| DaySix.GetNextIteration | AdventOfCode/DaySix/DaySix.cs:81-101 | the list loop builds ListStep: a fish whose timer would drop below 0 becomes an 8 followed by a 6, any other counts down by one, in list order |
| DaySix.ListStepRange | AdventOfCode/DaySix/DaySix.cs:85-98 | timers are never negative after a day, and stay at most 8 when they start so |
| DaySix.HistogramOfListStep | AdventOfCode/DaySix/DaySix.cs:81-101 | for non-negative timers, the tally of the new list is the dictionary day of the old list's tally: both versions agree |
| DaySix.HistogramOfListStepLast | AdventOfCode/DaySix/DaySix.cs:85-98 | one more fish keeps the two versions in agreement |
| DaySix.SpawnLast | AdventOfCode/DaySix/DaySix.cs:89-93 | a fish at timer 0 adds an 8 and a 6, as the tally's day does |
| DaySix.CountDownLast | AdventOfCode/DaySix/DaySix.cs:94-97 | a fish at a positive timer adds one at timer - 1, as the tally's day does |
| DaySix.HistogramOfSpawn | AdventOfCode/DaySix/DaySix.cs:91-92 | appending an 8 and a 6 adds one to each count |
| DaySix.ListStepLength | AdventOfCode/DaySix/DaySix.cs:81-101 | a day adds one fish per timer at 0 |
| DaySix.HistogramOfListStepN | AdventOfCode/DaySix/DaySix.cs:115-125 | after n days the list's tally is the dictionary version's tally after n days |
| DaySix.GetFishStateAfterDayCount | AdventOfCode/DaySix/DaySix.cs:115-125 | the list after max(0, dayCount) days |
| Day7.TriangleClosedForm | AdventOfCode/Day7/Day7.cs:125-142 | the summation 0 + 1 + ... + n is n(n + 1)/2 |
| Day7.FuelTotalMonotone | AdventOfCode/Day7/Day7.cs:24-32 | the running total over a prefix of the crabs never exceeds the whole total, so capping early agrees with capping at the end |
| Day7.Summation.constructor | AdventOfCode/Day7/Day7.cs:119-123 | the memo starts as {0: 0, 1: 1}, which holds the base cases 0 and 1 and only triangular numbers |
| Day7.Summation.GetSum | AdventOfCode/Day7/Day7.cs:125-142 | a negative argument throws; otherwise the result is the triangular number n(n + 1)/2, the memo only grows, keeps the keys 0 and 1 and keeps holding triangular numbers |
| Day7.TotalFuelToMoveToPosition | AdventOfCode/Day7/Day7.cs:20-35 | the sum of the distances to the target, or int.MaxValue once a running total exceeds maxFuel |
| Day7.TotalFuelToMoveToPositionSummation | AdventOfCode/Day7/Day7.cs:37-54 | the sum of the triangular numbers of the distances, or int.MaxValue once a running total exceeds maxFuel |
| Day7.FindBoundaries | AdventOfCode/Day7/Day7.cs:90-109 | the least and the greatest position, both taken from the list; (int.MaxValue, int.MinValue) for no positions |
| Day7.LeastFuelOverIsMinimum | AdventOfCode/Day7/Day7.cs:61-68 | the scan's value is the fuel of some target in the range and no target in the range needs less |
| Day7.FindLeastFuel | AdventOfCode/Day7/Day7.cs:56-71 | the least total fuel over every target between the least and the greatest position (int.MaxValue when it is larger, or when there are no crabs) |
| Day7.FindLeastFuelSummation | AdventOfCode/Day7/Day7.cs:73-88 | the same minimum with triangular fuel per crab |
| Day8.SubtractWires | AdventOfCode/Day8/Day8.cs:26-39 | the wires of source that are not in toSubtract: set difference |
| Day8.MinWire | AdventOfCode/Day8/Day8.cs:43 | the least wire of a non-empty pattern |
| Day8.MinWireExists | AdventOfCode/Day8/Day8.cs:43 | every non-empty pattern has a least wire |
| Day8.StringifySorted | AdventOfCode/Day8/Day8.cs:41-44 | the string lists each wire of the pattern once, in ascending order |
| Day8.StringifyInjective | AdventOfCode/Day8/Day8.cs:17 | two patterns have the same string exactly when they are the same set, so comparing strings compares sets |
| Day8.SubtractPatterns | AdventOfCode/Day8/Day8.cs:11-24 | the patterns of source whose string is not the string of a pattern in toSubtract: set difference |
| Day8.DigitsToHashSet | AdventOfCode/Day8/Day8.cs:196-209 | the set of the characters of the string |
| Day8.RenameSize | AdventOfCode/Day8/Day8.cs:84-135 | crossing the wires keeps a pattern's size |
| Day8.RenameMinus | AdventOfCode/Day8/Day8.cs:26-39 | subtracting crossed patterns is crossing their difference |
| Day8.RenameInjective | AdventOfCode/Day8/Day8.cs:84-135 | crossed patterns are equal exactly when the originals are |
| Day8.ShownMinusSize | AdventOfCode/Day8/Day8.cs:102-110 | the size of one crossed digit minus another is that of the standard digits |
| Day8.ShownSize | AdventOfCode/Day8/Day8.cs:90-91 | a crossed digit has as many segments as the standard digit |
| Day8.ShownDistinct | AdventOfCode/Day8/Day8.cs:84-135 | different digits look different through any crossing |
| Day8.StandardDistinct | AdventOfCode/Day8/Day8.cs:84-135 | the ten standard digits are pairwise different |
| Day8.StandardSizes | AdventOfCode/Day8/Day8.cs:97-100 | the segment counts of the ten digits, giving the unique sizes 2, 3, 4 and 7 of 1, 7, 4 and 8 |
| Day8.SixesMinusFour | AdventOfCode/Day8/Day8.cs:102-104 | among the six-segment digits only 9 has two segments outside 4 |
| Day8.FivesMinusFour | AdventOfCode/Day8/Day8.cs:105-107 | among the five-segment digits only 2 has three segments outside 4 |
| Day8.SixesMinusSeven | AdventOfCode/Day8/Day8.cs:108-110 | among the six-segment digits only 6 has four segments outside 7 |
| Day8.SegmentsEAndC | AdventOfCode/Day8/Day8.cs:115-128 | 8 minus 9 is segment e, 9 minus 6 minus e is segment c, and 9 minus c is 5 |
| Day8.GroupBySize | AdventOfCode/Day8/Day8.cs:90-91 | one non-empty group per size present, holding exactly the patterns of that size |
| Day8.Only | AdventOfCode/Day8/Day8.cs:134 | the single element of a one-element group, which First() picks |
| Day8.TableForStep | AdventOfCode/Day8/Day8.cs:134 | with distinct keys, the next entry's key is new and adding it extends the table |
| Day8.ToTable | AdventOfCode/Day8/Day8.cs:134 | ToDictionary succeeds on singleton groups with distinct strings and maps each string to its digit; any table it returns maps keys to the listed digits |
| Day8.ExpectedEntries | AdventOfCode/Day8/Day8.cs:97-132 | the ten entries the picks give for a crossed display are each one pattern |
| Day8.ExpectedKeysDistinct | AdventOfCode/Day8/Day8.cs:134 | a crossed display's ten strings are distinct, so ToDictionary does not throw |
| Day8.ExpectedTable | AdventOfCode/Day8/Day8.cs:134 | the table built from those entries maps each digit's string to the digit and has no other key |
| Day8.GroupIs | AdventOfCode/Day8/Day8.cs:90-91 | a non-empty group of size n is the group GroupBy gives |
| Day8.SizesOfTen | AdventOfCode/Day8/Day8.cs:90-91 | ten digits' patterns group into the sizes 2, 3, 4, 5, 6 and 7 |
| Day8.SinglesOfTen | AdventOfCode/Day8/Day8.cs:97-100 | sizes 2, 3, 4 and 7 hold only the patterns of 1, 7, 4 and 8 |
| Day8.TriplesOfTen | AdventOfCode/Day8/Day8.cs:102-132 | size 5 holds 2, 3 and 5; size 6 holds 0, 6 and 9 |
| Day8.ScrambledGroups | AdventOfCode/Day8/Day8.cs:88-91 | grouping a crossed display's patterns gives the groups of that crossing |
| Day8.ShownSizes | AdventOfCode/Day8/Day8.cs:90-91 | all ten crossed digits keep their segment counts |
| Day8.PickOne | AdventOfCode/Day8/Day8.cs:102-110 | a filter on three patterns that only one passes keeps that one |
| Day8.NineFound | AdventOfCode/Day8/Day8.cs:102-104 | the filter for 9 keeps exactly the crossed 9 |
| Day8.TwoFound | AdventOfCode/Day8/Day8.cs:105-107 | the filter for 2 keeps exactly the crossed 2 |
| Day8.SixFound | AdventOfCode/Day8/Day8.cs:108-110 | the filter for 6 keeps exactly the crossed 6 |
| Day8.CrossedSegments | AdventOfCode/Day8/Day8.cs:115-128 | through any crossing, segment e, segment c and digit 5 come out as the crossed e, c and 5 |
| Day8.Remaining | AdventOfCode/Day8/Day8.cs:111-113 | removing 9 and 6 from the sixes leaves 0; removing 2 and 5 from the fives leaves 3 |
| Day8.TranslationEntries | AdventOfCode/Day8/Day8.cs:97-132 | the ten picks for a crossed display are exactly the crossed digits |
| Day8.TranslationResult | AdventOfCode/Day8/Day8.cs:97-134 | the dictionary then built is the table of that crossing |
| Day8.TableFromGroups | AdventOfCode/Day8/Day8.cs:95-134 | for the groups of any crossing the picks succeed and give that crossing's table; an empty pick throws |
| Day8.GetTranslationTable | AdventOfCode/Day8/Day8.cs:84-135 | for patterns that are the ten digits through some crossing of the wires, the table maps each digit's string to that digit and holds nothing else; a missing size throws |
| Day8.NumberSnoc | AdventOfCode/Day8/Day8.cs:72-79 | appending a digit multiplies the number by ten and adds the digit |
| Day8.NumberBound | AdventOfCode/Day8/Day8.cs:72-79 | k decimal digits spell a number in 0..10^k - 1 |
| Day8.DigitTimes | AdventOfCode/Day8/Day8.cs:77 | a digit times a positive place value is at most nine times it |
| Day8.ShownInAll | AdventOfCode/Day8/Day8.cs:84-135 | every crossed digit is among the ten patterns |
| Day8.AllShownDigit | AdventOfCode/Day8/Day8.cs:84-135 | every one of the ten patterns is some crossed digit |
| Day8.TableLookup | AdventOfCode/Day8/Day8.cs:65-67 | a pattern's string is a key of the crossing's table exactly when it is a crossed digit, and the key gives that digit |
| Day8.LookUpDigits | AdventOfCode/Day8/Day8.cs:63-70 | succeeds exactly when every output's string is a key (Single throws otherwise) and then gives each output's digit in order |
| Day8.SumDigits | AdventOfCode/Day8/Day8.cs:72-81 | the loop from the last digit with a growing multiplier yields the decimal number the digits spell |
| Day8.Decode | AdventOfCode/Day8/Day8.cs:58-82 | for a crossed display whose outputs show digits ds the result is the number ds spell; an output that is no digit of the crossing throws |
| Day8.CountUniqueDigits | AdventOfCode/Day8/Day8.cs:155-172 | the number of output patterns of size 2, 3, 4 or 7 over all displays |
| Day8.UniqueSizeDigits | AdventOfCode/Day8/Day8.cs:157-164 | a crossed digit has a unique size exactly when it is 1, 4, 7 or 8 |
| Day8.CountedAreEasyDigits | AdventOfCode/Day8/Day8.cs:155-172 | the outputs counted are exactly those showing 1, 4, 7 or 8 |
| Day8.Stringify | AdventOfCode/Day8/Day8.cs:41-44 | a pattern's wires joined in ascending order; StringifySorted and StringifyInjective state that the string lists each wire once, in order, and identifies the pattern |
| Day9.Data.constructor | AdventOfCode/Day9/Day9.cs:123-126 | a new height-by-width height map |
| Day9.AdjacentMeaning | AdventOfCode/Day9/Day9.cs:85-95 | the four distinct points at Manhattan distance 1 |
| Day9.ValidPoints | AdventOfCode/Day9/Day9.cs:40 | the Where(IsValid) filter keeps only cells inside the map |
| Day9.ValidPointsMeaning | AdventOfCode/Day9/Day9.cs:40 | a point survives the filter exactly when it was listed and lies inside the map |
| Day9.AllHigherMeaning | AdventOfCode/Day9/Day9.cs:82 | All(...) holds exactly when every listed cell is higher than the given height |
| Day9.LowPointMeaning | AdventOfCode/Day9/Day9.cs:76-83 | a cell is a low point exactly when every orthogonal neighbour inside the map is strictly higher |
| Day9.GetLowPoints | AdventOfCode/Day9/Day9.cs:56-74 | the low points, row by row and left to right within a row |
| Day9.ScanRow | AdventOfCode/Day9/Day9.cs:62-70 | the inner loop appends the low points of row y, left to right |
| Day9.AppendOrdered | AdventOfCode/Day9/Day9.cs:56-74 | two ordered lists, the first wholly before the second, concatenate to an ordered list |
| Day9.AppendColumn | AdventOfCode/Day9/Day9.cs:62-70 | one more column keeps the row's list exact and ordered |
| Day9.AppendRow | AdventOfCode/Day9/Day9.cs:60-71 | one more row keeps the list exact and ordered |
| Day9.LowPointsInRowMeaning | AdventOfCode/Day9/Day9.cs:62-70 | a row's list holds exactly its low points below column n, in order |
| Day9.LowPointsAboveMeaning | AdventOfCode/Day9/Day9.cs:60-71 | the list holds exactly the low points above row m, in order |
| Day9.LowPointsMeaning | AdventOfCode/Day9/Day9.cs:56-74 | GetLowPoints lists exactly the cells of the map that are low points, each once, in row-major order |
| Day9.IntToStringNoColon | AdventOfCode/Day9/Day9.cs:179-180 | the decimal form of an integer has no colon |
| Day9.IntToStringSign | AdventOfCode/Day9/Day9.cs:179-180 | the decimal form is non-empty and starts with '-' exactly for negatives |
| Day9.IntToStringInjective | AdventOfCode/Day9/Day9.cs:179-180 | different integers have different decimal forms |
| Day9.FirstColonAfter | AdventOfCode/Day9/Day9.cs:179-180 | the first colon of "x:y" follows x |
| Day9.KeyifyInjective | AdventOfCode/Day9/Day9.cs:179-180 | two coordinates have the same "X:Y" key exactly when they are equal, so the dictionary keyed by it is a set of coordinates |
| Day9.Basin.constructor | AdventOfCode/Day9/Day9.cs:159-162 | a new basin holds only its low point |
| Day9.Basin.Contains | AdventOfCode/Day9/Day9.cs:164-165 | true exactly when the coordinate is in the basin |
| Day9.Basin.Add | AdventOfCode/Day9/Day9.cs:167-177 | adds the coordinate under its key; returns false, changing nothing, when it was already there |
| Day9.ClosedHoldsReachable | AdventOfCode/Day9/Day9.cs:34-50 | a set closed under open neighbours holds everything reachable from its members |
| Day9.ReachStep | AdventOfCode/Day9/Day9.cs:44-47 | an open neighbour of a reachable cell is reachable |
| Day9.FillStep | AdventOfCode/Day9/Day9.cs:34-50 | after one pop, every basin cell not on the stack has all its open neighbours in the basin |
| Day9.FillShrinks | AdventOfCode/Day9/Day9.cs:34-50 | the cells not yet in the basin only shrink, strictly when the basin grew, so the loop ends |
| Day9.SoundAdd | AdventOfCode/Day9/Day9.cs:44-47 | adding an open neighbour keeps every basin cell reachable from the low point |
| Day9.SettledByVisit | AdventOfCode/Day9/Day9.cs:38-49 | once all of a popped cell's open valid neighbours are in the basin, that cell is settled |
| Day9.InAllCells | AdventOfCode/Day9/Day9.cs:148-152 | every valid cell is among the map's cells |
| Day9.VisitPoint | AdventOfCode/Day9/Day9.cs:44-48 | an open neighbour (not 9) joins the basin, and is pushed when it was new; a 9 changes nothing |
| Day9.VisitNeighbours | AdventOfCode/Day9/Day9.cs:38-49 | visiting a popped cell's valid neighbours settles it and pushes exactly the new basin cells |
| Day9.GetBasin | AdventOfCode/Day9/Day9.cs:26-54 | the basin is exactly the set of cells reachable from the low point by orthogonal steps through cells other than 9 |
| Day9.IsLowPoint | AdventOfCode/Day9/Day9.cs:76-83 | the low-point test on the valid neighbours; LowPointMeaning states that it holds exactly when every orthogonal neighbour inside the map is strictly higher |
| Day10.FindOpenerForCloser | AdventOfCode/Day10/Day10.cs:121-122 | for a closer, the opener whose closer it is; for any other character the default '\0' |
| Day10.ScoreCorruption | AdventOfCode/Day10/Day10.cs:48-51 | fails exactly when some character is not a closer (a missing key); otherwise the sum of the points 3, 57, 1197 and 25137 |
| Day10.ScoreUnclosedValues | AdventOfCode/Day10/Day10.cs:53-65 | fails exactly when some character is not a closer; otherwise the base-5 number whose digits are the points 1 to 4 of the closers |
| Day10.UnclosedScoreInjective | AdventOfCode/Day10/Day10.cs:53-65 | different closer strings get different scores, so the completion is recoverable from its score |
| Day10.ClosersFor | AdventOfCode/Day10/Day10.cs:108-115 | one closer per opener on the stack |
| Day10.RunKeepsOpeners | AdventOfCode/Day10/Day10.cs:78-106 | the scan's stack only ever holds openers |
| Day10.FindCorruption | AdventOfCode/Day10/Day10.cs:74-118 | the stack scan: an invalid token throws, a closer on an empty stack or against the wrong opener is reported as mismatched, and otherwise the closers for the remaining stack, innermost first |
| Day10.PopClosers | AdventOfCode/Day10/Day10.cs:108-115 | popping the whole stack lists its closers from the top down |
| Day10.RunConcat | AdventOfCode/Day10/Day10.cs:78-106 | scanning a + b is scanning a and then, unless a already failed or mismatched, b from the stack a left |
| Day10.ClosersClose | AdventOfCode/Day10/Day10.cs:108-115 | scanning the listed closers from the stack empties it without a mismatch |
| Day10.CompletionBalances | AdventOfCode/Day10/Day10.cs:74-118 | a line that is only incomplete, followed by its missing closers, is complete: no mismatch and nothing missing |
| Day10.RenderScans | AdventOfCode/Day10/Day10.cs:78-106 | a well-nested chunk scans without mismatch and leaves the stack as it found it |
| Day10.RenderAllScans | AdventOfCode/Day10/Day10.cs:78-106 | a sequence of well-nested chunks does the same |
| Day10.NestedLineIsComplete | AdventOfCode/Day10/Day10.cs:74-118 | a line of well-nested chunks has no mismatch and no missing closers |
| Day11.ArrayCopy | AdventOfCode/Day11/Day11.cs:165-178 | a new array of the same shape holding the same entry at every index |
| Day11.OctoMap.constructor | AdventOfCode/Day11/Day11.cs:150-153 | a new level array of the requested width and height |
| Day11.OctoMap.Copy | AdventOfCode/Day11/Day11.cs:155-162 | a new map over a new array, so the copy shares nothing with the original and holds the same levels |
| Day11.GetAdjacentPoints | AdventOfCode/Day11/Day11.cs:85-101 | the list built by the two offset loops is the neighbour list |
| Day11.NeighboursMeaning | AdventOfCode/Day11/Day11.cs:85-101 | eight points, pairwise distinct, and a point is listed exactly when it differs from p and lies within one step of it along both axes |
| Day11.NeighboursDistinct | AdventOfCode/Day11/Day11.cs:89-98 | no point is listed twice |
| Day11.InBounds | AdventOfCode/Day11/Day11.cs:129-130 | every kept point is a valid index of the array |
| Day11.InBoundsMeaning | AdventOfCode/Day11/Day11.cs:125-130 | a point is kept exactly when it was listed and is a valid index |
| Day11.GetValidAdjacentPoints | AdventOfCode/Day11/Day11.cs:129-130 | the neighbours filtered to the valid indices, in order |
| Day11.ValidNeighboursMeaning | AdventOfCode/Day11/Day11.cs:125-130 | a point is a valid neighbour exactly when it is an index of the array adjacent to p |
| Day11.NearSymmetric | AdventOfCode/Day11/Day11.cs:85-101 | adjacency is symmetric |
| Day11.NeighbourCount | AdventOfCode/Day11/Day11.cs:85-101 | each point occurs once among p's neighbours when adjacent to p and never otherwise |
| Day11.NearCount | AdventOfCode/Day11/Day11.cs:85-101 | any duplicate-free list of exactly the adjacent points counts each point once when adjacent and zero times otherwise |
| Day11.DistinctCount | AdventOfCode/Day11/Day11.cs:89-98 | in a duplicate-free list each element occurs once |
| Day11.InBoundsCount | AdventOfCode/Day11/Day11.cs:129-130 | filtering keeps the multiplicity of valid points and drops the others entirely |
| Day11.Ignite | AdventOfCode/Day11/Day11.cs:110-121 | only cells of the grid are driven past 9 |
| Day11.Cascade | AdventOfCode/Day11/Day11.cs:103-123 | every round of the cascade flashes only cells of the grid |
| Day11.FlashingNone | AdventOfCode/Day11/Day11.cs:117-121 | with no flashes no neighbour raises a cell |
| Day11.FlashingMonotone | AdventOfCode/Day11/Day11.cs:117-121 | more flashing cells raise each cell at least as often |
| Day11.FlashingAdd | AdventOfCode/Day11/Day11.cs:113-121 | one more flash raises each cell once more per time it is listed among the flasher's neighbours, when it lies in the grid |
| Day11.IgniteMonotone | AdventOfCode/Day11/Day11.cs:112-121 | more flashing cells drive at least as many cells past 9 |
| Day11.CascadeBelowStep | AdventOfCode/Day11/Day11.cs:103-123 | one round from inside a closed set stays inside it |
| Day11.CascadeBelow | AdventOfCode/Day11/Day11.cs:103-123 | every round stays inside every set closed under flashing |
| Day11.CascadeGrowsStep | AdventOfCode/Day11/Day11.cs:103-123 | a round that only added cells is followed by one that only adds |
| Day11.CascadeGrows | AdventOfCode/Day11/Day11.cs:105-108 | a cell that has flashed stays flashed: each round only adds cells |
| Day11.CascadeSettles | AdventOfCode/Day11/Day11.cs:103-123 | after n rounds the cascade has settled or has flashed at least n + 1 cells, so it settles within as many rounds as there are cells |
| Day11.FlashesLeast | AdventOfCode/Day11/Day11.cs:103-123 | the flashes of a step drive no further cell past 9 and lie inside every set closed under flashing: they are the least such set, whatever the order of the recursion |
| Day11.StepMeaning | AdventOfCode/Day11/Day11.cs:56-83 | the step keeps the cells; a flashed cell ends at 0, any other cell rises and ends at most 9; from levels 0 to 9 the levels stay 0 to 9 and the zero cells are exactly the flashes |
| Day11.ClosedSaturated | AdventOfCode/Day11/Day11.cs:112-121 | a set closed under flashing is closed cell by cell |
| Day11.Skip | AdventOfCode/Day11/Day11.cs:105-108 | raising an already flashed cell changes nothing and discharges the raise owed to it |
| Day11.Pay | AdventOfCode/Day11/Day11.cs:110 | raising a cell that is owed a raise keeps every level at or below the level the step gives it |
| Day11.Justified | AdventOfCode/Day11/Day11.cs:112-115 | a cell only flashes when it belongs to the step's flashes |
| Day11.Ignited | AdventOfCode/Day11/Day11.cs:114-121 | a new flash owes exactly one raise to each adjacent cell |
| Day11.ChargeStep | AdventOfCode/Day11/Day11.cs:110-121 | raising a cell past 9 flashes it and owes its neighbours a raise; otherwise the raise is paid and nothing more is owed |
| Day11.PendingStep | AdventOfCode/Day11/Day11.cs:62-69 | the scan owes the current cell one raise, and one cell later it no longer does |
| Day11.RaisedStep | AdventOfCode/Day11/Day11.cs:62-69 | after the scan visits a cell, that cell has flashed or risen |
| Day11.PendingColumn | AdventOfCode/Day11/Day11.cs:62-69 | the end of one column is the start of the next |
| Day11.ScanStep | AdventOfCode/Day11/Day11.cs:64-68 | the scan invariant holds one cell further on |
| Day11.ScanNextColumn | AdventOfCode/Day11/Day11.cs:62-64 | the scan invariant holds at the start of the next column |
| Day11.Started | AdventOfCode/Day11/Day11.cs:58-60 | the scan invariant holds before the first cell, with nothing flashed |
| Day11.NothingPending | AdventOfCode/Day11/Day11.cs:62 | past the last column the scan owes nothing |
| Day11.ClosedAtEnd | AdventOfCode/Day11/Day11.cs:62-69 | when the scan ends, the flashed set is closed and every other cell has the level its flashing neighbours give it |
| Day11.Settled | AdventOfCode/Day11/Day11.cs:62-80 | the scan's flashed set is exactly the step's flashes, and resetting them yields the step |
| Day11.ZeroedStep | AdventOfCode/Day11/Day11.cs:71-80 | resetting the flashed cells of the raised levels yields the step |
| Day11.Grid | AdventOfCode/Day11/Day11.cs:146-148 | the grid holds exactly the valid indices of the array, each with its entry |
| Day11.GridLevels | AdventOfCode/Day11/Day11.cs:146-148 | the array holds the levels L exactly when its grid is L |
| Day11.RaisesOf | AdventOfCode/Day11/Day11.cs:117-121 | the valid neighbours of p raise each cell of the grid once when adjacent to p and never otherwise |
| Day11.Bump | AdventOfCode/Day11/Day11.cs:110 | the cell rises by one and no other cell changes |
| Day11.Flag | AdventOfCode/Day11/Day11.cs:114 | the cell is marked flashed and no other mark changes |
| Day11.RaiseEnergy | AdventOfCode/Day11/Day11.cs:103-123 | the recursion pays the raise owed to p and every raise its flashes owe, keeps the levels at or below the step's, leaves p flashed or risen, and counts one per new flash |
| Day11.Charge | AdventOfCode/Day11/Day11.cs:110-116 | the cell rises by one; it flashes exactly when it passes 9, and then owes its valid neighbours a raise each |
| Day11.RaiseNeighbours | AdventOfCode/Day11/Day11.cs:117-121 | raising each listed neighbour in turn pays every raise owed to them and counts one per new flash |
| Day11.RaiseColumn | AdventOfCode/Day11/Day11.cs:64-68 | one column of the scan keeps the scan invariant, and the count is the number of flashes so far |
| Day11.ResetFlashed | AdventOfCode/Day11/Day11.cs:71-80 | every flashed cell becomes 0 and every other cell keeps its level |
| Day11.GetNextStep | AdventOfCode/Day11/Day11.cs:56-83 | a new map whose levels are the value-level step of the input, which is unchanged; the count is the number of cells that flash; every cell ends at 0 or above its old level, and from levels 0 to 9 the zero cells are exactly the flashes |
| Day11.RaiseAll | AdventOfCode/Day11/Day11.cs:62-69 | the scan flashes exactly the step's flashes, counts them, and leaves levels that reset to the step |
| Day11.StepOnArray | AdventOfCode/Day11/Day11.cs:71-80 | on arrays, every cell ends at 0 or above its old level, and from levels 0 to 9 the levels stay 0 to 9 with the zeros exactly the flashes |
| Day11.StepDigits | AdventOfCode/Day11/Day11.cs:71-80 | from levels 0 to 9 the next levels are 0 to 9 and the zero cells are exactly the flashes |
| Day12.GraphNode.constructor | AdventOfCode/Day12/Day12.cs:209-213 | a node with the given label and no edges |
| Day12.Link | AdventOfCode/Day12/Day12.cs:183-190 | adding an edge makes both ends nodes, links each to the other, leaves every other node's edges alone, adds no other edge, and keeps the graph closed and symmetric |
| Day12.LinkSteps | AdventOfCode/Day12/Day12.cs:183-190 | inserting first, inserting second, then adding each end to the other's edges is the same as adding the edge, also when first == second |
| Day12.Graph.constructor | AdventOfCode/Day12/Day12.cs:177-180 | an empty graph |
| Day12.Graph.Get | AdventOfCode/Day12/Day12.cs:192-200 | an existing node is returned unchanged; a missing label gets a new node with no edges; no other node changes |
| Day12.Graph.Join | AdventOfCode/Day12/Day12.cs:188-189 | one label is added to one node's edges and nothing else changes |
| Day12.Graph.AddEdge | AdventOfCode/Day12/Day12.cs:183-190 | the graph's adjacency becomes the adjacency with the edge added both ways |
| Day12.ReversedMultiset | AdventOfCode/Day12/Day12.cs:131-147 | reversing keeps every element with its multiplicity |
| Day12.ReversedTwice | AdventOfCode/Day12/Day12.cs:131-147 | reversing twice gives the list back |
| Day12.Reverse | AdventOfCode/Day12/Day12.cs:131-147 | pushing every element on a stack and popping them all gives the list in reverse order |
| Day12.LabelsReversed | AdventOfCode/Day12/Day12.cs:67 | the labels of the reversed stack are the stack's labels reversed |
| Day12.PushStack | AdventOfCode/Day12/Day12.cs:73-84 | pushing a neighbour other than start keeps the stack a walk from start that has not reached end before its top |
| Day12.StackRoute | AdventOfCode/Day12/Day12.cs:65-67 | a stack whose top is end, reversed, is a route from start to end along edges |
| Day12.BigPairEndless | AdventOfCode/Day12/Day12.cs:113-116 | two adjacent big caves can always be pushed again: the stack grows by two with no small cave counted more often, so the search never ends |
| Day12.AcceptedSmall | AdventOfCode/Day12/Day12.cs:117-127 | a small cave the check accepts had fewer than two visits, and visiting it keeps at most one small cave visited twice |
| Day12.SameUnused | AdventOfCode/Day12/Day12.cs:159-167 | visit maps with the same counts leave the same visits unused |
| Day12.UnusedShrinks | AdventOfCode/Day12/Day12.cs:149-157 | visiting a small cave seen fewer than twice uses up one visit: the measure of the recursion drops |
| Day12.UnusedBig | AdventOfCode/Day12/Day12.cs:149-157 | visiting a big cave uses up no visit |
| Day12.StartState | AdventOfCode/Day12/Day12.cs:47-48 | the stack holding start, with start visited once, is a valid search state |
| Day12.Recount | AdventOfCode/Day12/Day12.cs:88 | decrementing back to the same counts leaves a valid search state with the same unused visits |
| Day12.Push | AdventOfCode/Day12/Day12.cs:78-82 | pushing a cave the check accepts, with its visit counted, keeps a valid search state, and a small cave so pushed had fewer than two visits |
| Day12.PushSlots | AdventOfCode/Day12/Day12.cs:78-84 | a small cave pushed shrinks the measure; a big cave leaves it and was entered from a small cave, so the recursion terminates on graphs without adjacent big caves |
| Day12.AddRoute | AdventOfCode/Day12/Day12.cs:65-67 | appending a route from start to end that obeys the visit rule keeps every recorded route valid |
| Day12.PathPush | AdventOfCode/Day12/Day12.cs:82 | the path from start grows by the pushed label at its end |
| Day12.PathTop | AdventOfCode/Day12/Day12.cs:82 | the path's last label is the top of the stack and the path holds the stack's labels |
| Day12.PathStart | AdventOfCode/Day12/Day12.cs:48 | the path begins at start |
| Day12.VisitRulePrefix | AdventOfCode/Day12/Day12.cs:117-127 | a prefix of a route that obeys the visit rule obeys it too |
| Day12.Rejected | AdventOfCode/Day12/Day12.cs:108-127 | a cave the check refuses starts no valid route from that prefix: the pruning loses no route |
| Day12.ThroughNone | AdventOfCode/Day12/Day12.cs:73 | before the loop no edge is done and the coverage claim holds vacuously |
| Day12.FreshNext | AdventOfCode/Day12/Day12.cs:73-89 | a prefix not yet explored stays unexplored when extended by an edge not done yet |
| Day12.ThroughNext | AdventOfCode/Day12/Day12.cs:73-89 | one more edge of the loop done keeps every route through the done edges recorded once |
| Day12.PassingNext | AdventOfCode/Day12/Day12.cs:73-89 | the routes recorded in the loop extend the done edges |
| Day12.ReachingNext | AdventOfCode/Day12/Day12.cs:73-89 | every valid route through a done edge is now recorded |
| Day12.ThroughAll | AdventOfCode/Day12/Day12.cs:71-90 | once all edges are done the routes recorded extend the prefix and cover every valid route through it |
| Day12.ArrivedOnce | AdventOfCode/Day12/Day12.cs:65-68 | recording a route that had not been recorded keeps the routes unique and covers the only route with that prefix |
| Day12.CoversStart | AdventOfCode/Day12/Day12.cs:40-52 | covering the prefix [start] means every valid route is recorded |
| Day12.Arrived | AdventOfCode/Day12/Day12.cs:65-67 | reaching end, the reversed stack is a route from start to end that obeys the visit rule |
| Day12.Uncount | AdventOfCode/Day12/Day12.cs:88 | decrementing the count the visit added restores the counts before it |
| Day12.RouteSearch.constructor | AdventOfCode/Day12/Day12.cs:42-46 | no visits, an empty stack and no routes |
| Day12.RouteSearch.AddVisit | AdventOfCode/Day12/Day12.cs:149-157 | the label's count rises by one, a missing label counting from 0; nothing else changes |
| Day12.RouteSearch.GetVisits | AdventOfCode/Day12/Day12.cs:159-167 | the label's count, 0 for a missing label that is inserted with count 0 |
| Day12.RouteSearch.ShouldExplore | AdventOfCode/Day12/Day12.cs:98-129 | never start; always a big cave; a small cave exactly when no small cave was visited twice or this one was never visited |
| Day12.RouteSearch.FindRoutesFrom | AdventOfCode/Day12/Day12.cs:54-91 | the stack and visit counts are restored; the routes are only extended, all valid, unique, and cover every valid route through the current prefix |
| Day12.RouteSearch.Record | AdventOfCode/Day12/Day12.cs:65-68 | one route is appended: the reversed stack, which is valid and new |
| Day12.RouteSearch.ExploreAll | AdventOfCode/Day12/Day12.cs:71-90 | the loop over the edges covers every valid route through the current prefix and restores the stack and counts |
| Day12.RouteSearch.Explore | AdventOfCode/Day12/Day12.cs:75-89 | one edge: every valid route through the prefix extended by it is recorded once, whether the check accepts it or not |
| Day12.RouteSearch.Descend | AdventOfCode/Day12/Day12.cs:80-88 | visit, push, recurse, pop and uncount cover every valid route through the extended prefix and restore the state |
| Day12.RouteSearch.Enter | AdventOfCode/Day12/Day12.cs:80-82 | the cave is pushed and counted, and the search state stays valid |
| Day12.RouteSearch.Leave | AdventOfCode/Day12/Day12.cs:86-88 | the cave is popped and uncounted, and the counts are those before it was entered |
| Day12.FindRoutes | AdventOfCode/Day12/Day12.cs:40-52 | fails exactly when start is not a node; otherwise every route found is a valid route from start to end, none twice, and every valid route is found |
| Day12.IsBigCave | AdventOfCode/Day12/Day12.cs:169 | a cave is big when its name starts with an upper-case letter; RouteSearch.ShouldExplore and BigPairEndless state what the search does with big caves |
| Day13.Reflect | AdventOfCode/Day13/Day13.cs:59-67 | the new coordinate never passes the line; one before the line is kept, one on or past it is mirrored to twice the line minus it |
| Day13.FoldX | AdventOfCode/Day13/Day13.cs:53-75 | every folded point lies at or left of the line; every point left of the line is kept; every point is kept or reappears mirrored |
| Day13.FoldY | AdventOfCode/Day13/Day13.cs:77-99 | every folded point lies at or above the line; every point above the line is kept; every point is kept or reappears mirrored |
| Day13.DoFold | AdventOfCode/Day13/Day13.cs:39-51 | the folded set is the image of the marked points under the fold of their own axis |
| Day13.FoldShrinks | AdventOfCode/Day13/Day13.cs:39-51 | a fold never adds points |
| Day13.FoldIdempotent | AdventOfCode/Day13/Day13.cs:53-99 | folding twice on the same line is folding once |
| Day13.DoAllFoldsShrinks | AdventOfCode/Day13/Day13.cs:25-37 | folding by a whole list never adds points |
| Day13.DoAllFoldsConcat | AdventOfCode/Day13/Day13.cs:25-37 | folding by one list and then another is folding by their concatenation, so the loop can be run fold by fold |
| Day13.FoldPoint | AdventOfCode/Day13/Day13.cs:53-99 | the image of one point under a fold; FoldX and FoldY state that it keeps the points before the line and mirrors those after it |
| Day14.CountMap.constructor | AdventOfCode/Day14/Day14.cs:87 | an empty tally |
| Day14.CountMap.MapAdd | AdventOfCode/Day14/Day14.cs:110-118 | the key's count rises by the given amount, a missing key counting from 0; no other count changes |
| Day14.Pairs | AdventOfCode/Day14/Day14.cs:89-92 | one pair per adjacent couple: none for an empty string, otherwise one fewer than its length |
| Day14.GetPairMapFromString | AdventOfCode/Day14/Day14.cs:85-95 | a new tally holding, for each adjacent pair, the number of times it occurs |
| Day14.PairMapTotal | AdventOfCode/Day14/Day14.cs:85-95 | the pair tally counts each pair as often as it occurs and sums to the string's length less one |
| Day14.GetElementMapFromString | AdventOfCode/Day14/Day14.cs:97-107 | a new tally holding, for each element, the number of times it occurs |
| Day14.ElementMapTotal | AdventOfCode/Day14/Day14.cs:97-107 | the element tally counts each element as often as it occurs and sums to the string's length |
| Day14.GetNextStep | AdventOfCode/Day14/Day14.cs:34-54 | a new pair tally built rule by rule, and the element tally updated in place, rule by rule, and returned as the same object |
| Day14.NextPairsKeys | AdventOfCode/Day14/Day14.cs:43-51 | a pair is in the next tally exactly when some rule whose pair is present produces it, as its left or its right half |
| Day14.NextTotals | AdventOfCode/Day14/Day14.cs:43-51 | the next pair tally sums to twice the pairs the rules matched, and the element tally grows by one element per matched pair |
| Day14.MatchedTotalOfDistinct | AdventOfCode/Day14/Day14.cs:43-51 | with one rule per pair, the matched total is the number of occurrences of the pairs that have a rule |
| Day14.StepDoublesPairs | AdventOfCode/Day14/Day14.cs:34-54 | when every present pair has exactly one rule, a step doubles the pair total and adds one element per pair, so the polymer's length goes from n to 2n - 1 |
| Day14Bad.Node.constructor | AdventOfCode/Day14/Day14_Bad.cs:220-223 | a node holding the value, linked to nothing |
| Day14Bad.ValuesOf | AdventOfCode/Day14/Day14_Bad.cs:35-41 | the values of the nodes, one per node, in order |
| Day14Bad.ValuesOfConcat | AdventOfCode/Day14/Day14_Bad.cs:35-41 | the values of joined node lists are the joined values |
| Day14Bad.IndexIn | AdventOfCode/Day14/Day14_Bad.cs:214-218 | the position of a node in the list |
| Day14Bad.DoublyLinkedList.constructor | AdventOfCode/Day14/Day14_Bad.cs:162-165 | an empty, well-linked list |
| Day14Bad.DoublyLinkedList.InsertTail | AdventOfCode/Day14/Day14_Bad.cs:197-211 | the list stays well linked, a new node is appended at the tail and the values gain the value at the end; the old nodes keep their order |
| Day14Bad.DoublyLinkedList.InsertHead | AdventOfCode/Day14/Day14_Bad.cs:181-195 | the list stays well linked, a new node is prepended at the head and the values gain the value at the front |
| Day14Bad.DoublyLinkedList.Copy | AdventOfCode/Day14/Day14_Bad.cs:167-179 | a new well-linked list of new nodes holding the same values |
| Day14Bad.AppendValid | AdventOfCode/Day14/Day14_Bad.cs:206-209 | linking a new node after the tail of a well-linked list leaves a well-linked list with the old nodes first |
| Day14Bad.GetListFromString | AdventOfCode/Day14/Day14_Bad.cs:126-136 | a new well-linked list of new nodes holding the string's characters in order |
| Day14Bad.IndexOfTracks | AdventOfCode/Day14/Day14_Bad.cs:231-242 | the index built node by node maps each character present to exactly the nodes holding it, and covers every node |
| Day14Bad.Tracker.Add | AdventOfCode/Day14/Day14_Bad.cs:244-252 | the node joins the set of its character, which is created empty when missing; no other entry changes |
| Day14Bad.Tracker.constructor | AdventOfCode/Day14/Day14_Bad.cs:231-242 | the tracker maps each character of the list to exactly the nodes holding it |
| Day14Bad.GetDelayedRulesToApply | AdventOfCode/Day14/Day14_Bad.cs:56-84 | every delayed rule found names a node where its pair starts, every such node and rule is found, and with one rule per pair no node is named twice |
| Day14Bad.FoundStep | AdventOfCode/Day14/Day14_Bad.cs:60-81 | after one more rule, every match of the rules so far has been found |
| Day14Bad.CollectMatches | AdventOfCode/Day14/Day14_Bad.cs:62-80 | one rule's pass keeps what was found before and adds every node where the rule's pair starts, and only such nodes |
| Day14Bad.MatchesAtNode | AdventOfCode/Day14/Day14_Bad.cs:70 | the test on a node and its successor is the test on the list's values at that position |
| Day14Bad.CollectVisit | AdventOfCode/Day14/Day14_Bad.cs:68-80 | visiting one more tracked node keeps the collection invariant, with the node added exactly when it matches |
| Day14Bad.CollectMatched | AdventOfCode/Day14/Day14_Bad.cs:70-79 | a matching node is added and the invariant holds |
| Day14Bad.CollectUnmatched | AdventOfCode/Day14/Day14_Bad.cs:70 | a node that does not match is skipped and the invariant holds |
| Day14Bad.CollectedAll | AdventOfCode/Day14/Day14_Bad.cs:66-80 | once every node holding the pair's first character has been visited, every match of the rule has been found |
| Day14Bad.UntrackedNeverMatches | AdventOfCode/Day14/Day14_Bad.cs:62-65 | a rule whose first character is not tracked matches nowhere, so skipping it loses nothing |
| Day14Bad.AllMatchSnoc | AdventOfCode/Day14/Day14_Bad.cs:72-78 | adding a matching delayed rule keeps every delayed rule a match |
| Day14Bad.NewNodeIsDistinct | AdventOfCode/Day14/Day14_Bad.cs:72-78 | with one rule per pair, a node matched by the current rule was not matched by an earlier one |
| Day14Bad.SpliceAfterMembers | AdventOfCode/Day14/Day14_Bad.cs:86-96 | the spliced list holds the old nodes and the new one |
| Day14Bad.SpliceAfterShape | AdventOfCode/Day14/Day14_Bad.cs:86-96 | splicing inside the list keeps its ends and adds no duplicate node |
| Day14Bad.SpliceAfterValues | AdventOfCode/Day14/Day14_Bad.cs:86-96 | the spliced values are the old values with the new value after position p |
| Day14Bad.ApplyRule | AdventOfCode/Day14/Day14_Bad.cs:86-96 | a new node holding the rule's element is linked in right after the delayed node; the list stays well linked, keeps its ends, and the tracker still tracks it |
| Day14Bad.Link | AdventOfCode/Day14/Day14_Bad.cs:90-94 | the new node sits between the node and its old successor, and the outer links are untouched |
| Day14Bad.SpliceLinks | AdventOfCode/Day14/Day14_Bad.cs:90-94 | after relinking, every node's next and last are its neighbours in the spliced list |
| Day14Bad.SpliceValid | AdventOfCode/Day14/Day14_Bad.cs:86-96 | the relinked list is well linked |
| Day14Bad.TracksSplice | AdventOfCode/Day14/Day14_Bad.cs:95 | adding the new node to its character's set keeps the tracker exact for the spliced list |
| Day14Bad.RuleFor | AdventOfCode/Day14/Day14_Bad.cs:60-81 | a pair gets an element exactly when some rule has that pair |
| Day14Bad.RuleForDistinct | AdventOfCode/Day14/Day14_Bad.cs:60-81 | with one rule per pair, the element found for a rule's pair is that rule's |
| Day14Bad.PolymerizeLength | AdventOfCode/Day14/Day14_Bad.cs:46-54 | a round adds one element per pair that has a rule and keeps the first and last elements |
| Day14Bad.SplicedNone | AdventOfCode/Day14/Day14_Bad.cs:46-54 | with nothing inserted the list is unchanged |
| Day14Bad.SplicedIgnores | AdventOfCode/Day14/Day14_Bad.cs:86-96 | an insertion after a node not in the list changes nothing |
| Day14Bad.SplicedInsert | AdventOfCode/Day14/Day14_Bad.cs:86-96 | one more insertion is one more splice after that node's position |
| Day14Bad.SpliceAfterPrefix | AdventOfCode/Day14/Day14_Bad.cs:86-96 | splicing inside a tail is splicing inside the whole list at the shifted position |
| Day14Bad.SplicedPolymerize | AdventOfCode/Day14/Day14_Bad.cs:46-54 | when exactly the nodes starting a pair with a rule carry an inserted node holding the rule's element, the spliced values are the round's result |
| Day14Bad.SplicedPolymerizeStep | AdventOfCode/Day14/Day14_Bad.cs:46-54 | the round's result for the list follows from the one for its tail |
| Day14Bad.SplicedHeadValues | AdventOfCode/Day14/Day14_Bad.cs:86-96 | the first node and its insertion hold the first value and the rule's element |
| Day14Bad.ValuesOfDrop | AdventOfCode/Day14/Day14_Bad.cs:35-41 | dropping the first node drops the first value |
| Day14Bad.ProcessRules | AdventOfCode/Day14/Day14_Bad.cs:46-54 | the list stays well linked and tracked, keeps its ends and its nodes, gains only new nodes, and with one rule per pair holds one round of insertions applied to the old values at once |
| Day14Bad.ApplyDelayedRules | AdventOfCode/Day14/Day14_Bad.cs:50-53 | applying the delayed rules in order inserts one new node after each named node, so the list is the old list spliced with those nodes |
| Day14Bad.GrownSplice | AdventOfCode/Day14/Day14_Bad.cs:50-53 | each splice keeps every old node and adds only the new one |
| Day14Bad.RoundValues | AdventOfCode/Day14/Day14_Bad.cs:46-54 | a round that follows the plan gives the values of one round of insertions |
| Day14Bad.DelayedNotTail | AdventOfCode/Day14/Day14_Bad.cs:70 | no delayed rule names the tail, which has no successor |
| Day14Bad.HasNext | AdventOfCode/Day14/Day14_Bad.cs:90 | every node but the tail has a successor in the list |
| Day14Bad.DelayedInsertions | AdventOfCode/Day14/Day14_Bad.cs:46-54 | the insertions made are exactly one per pair with a rule, each holding that rule's element |
| Day14Bad.InsertedMatch | AdventOfCode/Day14/Day14_Bad.cs:70-78 | a node with an insertion starts a pair whose rule inserts that element |
| Day14Bad.UninsertedUnmatched | AdventOfCode/Day14/Day14_Bad.cs:60-81 | a node without an insertion starts a pair no rule has |
| Day14Bad.ProcessStep | AdventOfCode/Day14/Day14_Bad.cs:50-53 | applying one more delayed rule extends the splice by its node |
| Day14Bad.DelayedNodesSnoc | AdventOfCode/Day14/Day14_Bad.cs:50-53 | the named nodes grow by the next rule's node |
| Day14Bad.Polymerize | AdventOfCode/Day14/Day14_Bad.cs:46-54 | one round of insertions on the element sequence; PolymerizeLength states its length and ends, and ProcessRules that the linked list holds it afterwards |
| Day15.Wrap | AdventOfCode/Day15/Day15.cs:119-127 | subtracting 9 while above 9 lands a risk of at least 1 in 1..9 and keeps a risk of at most 9 |
| Day15.OriginMul | AdventOfCode/Day15/Day15.cs:110 | the first index of tile i is i times the tile length |
| Day15.OriginMonotone | AdventOfCode/Day15/Day15.cs:110 | a later tile starts after the whole of an earlier one |
| Day15.TileIndex | AdventOfCode/Day15/Day15.cs:110 | an index inside tile i lies before every later tile and after every earlier one |
| Day15.OtherTile | AdventOfCode/Day15/Day15.cs:101-114 | a cell of one tile lies outside every other tile, so the tiles never overwrite each other |
| Day15.FillColumn | AdventOfCode/Day15/Day15.cs:107-111 | one column of a tile gets the base risks raised by the tile's shift and wrapped; no other cell changes |
| Day15.FillTile | AdventOfCode/Day15/Day15.cs:105-112 | a whole tile gets the base risks raised by its shift and wrapped; no cell outside it changes |
| Day15.SplatTile | AdventOfCode/Day15/Day15.cs:105-112 | filling one tile keeps every other filled tile filled |
| Day15.SplatGrid | AdventOfCode/Day15/Day15.cs:97-117 | a new grid xTimes and yTimes the size, every tile (i, j) holding the base risks raised by i + j and wrapped into 1..9 |
| Day15.GetAdjacentPoints | AdventOfCode/Day15/Day15.cs:158-167 | four points: exactly those one step up, down, left or right |
| Day15.OneEntryPerPoint | AdventOfCode/Day15/Day15.cs:82-87 | the queue holds at most one entry per point, because an entry is removed before its point is queued again |
| Day15.SearchLinked | AdventOfCode/Day15/Day15.cs:79-80 | every from link leads to a point settled earlier, so following the links ends |
| Day15.InitPaths | AdventOfCode/Day15/Day15.cs:28-41 | one record per grid point, filed under it: not reached, distance int.MaxValue, not completed |
| Day15.MinWeight | AdventOfCode/Day15/Day15.cs:53 | a weight in the queue that no entry is below |
| Day15.PopMin | AdventOfCode/Day15/Day15.cs:53-54 | an entry of the queue of least weight |
| Day15.Relax | AdventOfCode/Day15/Day15.cs:73-88 | only the neighbour's record may change, and only to a lower distance through current; afterwards its distance is at most current's plus its risk; the search invariant holds |
| Day15.RelaxSearch | AdventOfCode/Day15/Day15.cs:77-88 | lowering one distance and requeuing the point keeps the search invariant |
| Day15.RelaxPoints | AdventOfCode/Day15/Day15.cs:77-81 | lowering one distance through a settled neighbour keeps every record consistent |
| Day15.RelaxNeighbours | AdventOfCode/Day15/Day15.cs:67-89 | every valid neighbour not completed ends with distance at most current's plus its risk; every record changes only by a lower distance through current; the search invariant holds |
| Day15.Settle | AdventOfCode/Day15/Day15.cs:64-65 | marking the dequeued point completed settles it next in order and keeps the search invariant |
| Day15.Dequeue | AdventOfCode/Day15/Day15.cs:55 | removing an entry keeps the search invariant |
| Day15.StartSearch | AdventOfCode/Day15/Day15.cs:43-49 | the start at distance 0 alone in the queue is a valid search state |
| Day15.Visit | AdventOfCode/Day15/Day15.cs:64-89 | the point is settled, completed, and its neighbours relaxed; the search invariant holds |
| Day15.ShortestPaths | AdventOfCode/Day15/Day15.cs:21-90 | fails exactly on a grid with no cell; otherwise the records satisfy the search invariant from (0, 0) |
| Day15.GetPath | AdventOfCode/Day15/Day15.cs:141-156 | the points from a record with no from to end, each record naming the one before it |
| Day15.ChainRisk | AdventOfCode/Day15/Day15.cs:92-94 | a chain of records is a walk over the grid whose risks after the first cell add up to the difference of the distances at its ends |
| Day15.ChainStart | AdventOfCode/Day15/Day15.cs:92 | a chain of several points, or ending at a reached point, starts at (0, 0) |
| Day15.LowestRisk | AdventOfCode/Day15/Day15.cs:21-94 | fails exactly on a grid with no cell; otherwise the answer is the risk of a walk over the grid to the bottom right, less the first cell; a walk that leaves (0, 0) starts there, and then the answer is the distance found |
| Day15.Process | AdventOfCode/Day15/Day15.cs:13-95 | the five-by-five tiled grid and its lowest risk, as above |
| Day15_BadPaths.GetAdjacentPoints | AdventOfCode/Day15/Day15_Bad.cs:92-101 | four points: exactly those one step left, right, up or down |
| Day15_BadPaths.NextPoints | AdventOfCode/Day15/Day15_Bad.cs:67-70 | a point is next exactly when it is adjacent, a valid cell and not on the current path |
| Day15_BadPaths.RiskMap | AdventOfCode/Day15/Day15_Bad.cs:109 | the risks of exactly the grid's cells |
| Day15_BadPaths.TrailFacts | AdventOfCode/Day15/Day15_Bad.cs:72-83 | a path built by the search starts at start, steps between adjacent cells of the grid and visits no cell twice |
| Day15_BadPaths.CostPrefix | AdventOfCode/Day15/Day15_Bad.cs:48-51 | with no negative risk, a prefix of a path costs no more than the path, so pruning a path already dearer than the best loses nothing |
| Day15_BadPaths.Push | AdventOfCode/Day15/Day15_Bad.cs:74-76 | pushing an adjacent unvisited cell, adding its risk and marking it visited keeps the current path's invariant |
| Day15_BadPaths.Pop | AdventOfCode/Day15/Day15_Bad.cs:80-82 | unmarking, subtracting the risk and popping the last cell restores the invariant for the shorter path |
| Day15_BadPaths.AtEnd | AdventOfCode/Day15/Day15_Bad.cs:53-65 | a simple path to end that extends a path already at end is that path: stopping at end loses nothing |
| Day15_BadPaths.GoesOn | AdventOfCode/Day15/Day15_Bad.cs:67-72 | every simple path to end through a prefix not at end continues through one of the next points |
| Day15_BadPaths.ViaStep | AdventOfCode/Day15/Day15_Bad.cs:72-83 | a best path at least as good as every path through one more next point covers that point too |
| Day15_BadPaths.Pruned | AdventOfCode/Day15/Day15_Bad.cs:48-51 | with no negative risk, a current path dearer than the best has no extension cheaper than the best |
| Day15_BadPaths.Reached | AdventOfCode/Day15/Day15_Bad.cs:53-65 | at end, the best is at least as good as the only path through the current one |
| Day15_BadPaths.Explored | AdventOfCode/Day15/Day15_Bad.cs:67-83 | a best at least as good as every path through each next point is at least as good as every path through the current one |
| Day15_Bad.GraphTraversalContext.constructor | AdventOfCode/Day15/Day15_Bad.cs:24-39 | the path [start] at cost 0, no best path yet at cost int.MaxValue, start visited, end the bottom-right cell |
| Day15_Bad.GraphTraversalContext.FindShortestPath | AdventOfCode/Day15/Day15_Bad.cs:46-84 | the current path and visited cells are restored; the best only improves, to a simple path to end at its own cost; with no negative risk no path through the current one is cheaper than the best |
| Day15_Bad.GraphTraversalContext.ExploreNext | AdventOfCode/Day15/Day15_Bad.cs:67-83 | the loop over the next points restores the state, and the best covers every path through the current one |
| Day15_Bad.GraphTraversalContext.Descend | AdventOfCode/Day15/Day15_Bad.cs:74-82 | push, recurse and pop restore the state, and the best covers every path through the extended one |
| Day15_Bad.GraphTraversalContext.Enter | AdventOfCode/Day15/Day15_Bad.cs:74-76 | the cell is pushed, its risk added and it is marked visited |
| Day15_Bad.GraphTraversalContext.Leave | AdventOfCode/Day15/Day15_Bad.cs:80-82 | the cell is unmarked, its risk subtracted and it is popped |
| Day15_Bad.FindShortestPath | AdventOfCode/Day15/Day15_Bad.cs:20-44 | the empty path at int.MaxValue, or a simple path from the top left to the bottom right at its own risk; with no negative risk it costs no more than any such path |
| Day16.HexValue | AdventOfCode/Day16/Day16.cs:41-59 | a hexadecimal digit's value is below 16 |
| Day16.HexBitsValue | AdventOfCode/Day16/Day16.cs:41-59 | every table entry is four binary digits whose value is the digit's value |
| Day16.HexBitsNumeral | AdventOfCode/Day16/Day16.cs:41-59 | every table entry is the 4-digit binary numeral of its digit |
| Day16.ToBinary | AdventOfCode/Day16/Day16.cs:107-117 | succeeds exactly when every character is in the table, and otherwise fails with the dictionary's KeyNotFoundException |
| Day16.ToBinaryLayout | AdventOfCode/Day16/Day16.cs:107-117 | the binary string is four times as long, and its i-th group of four digits is the table entry of the i-th character |
| Day16.ToBinaryValue | AdventOfCode/Day16/Day16.cs:107-117 | the binary string denotes the same number as the hexadecimal one |
| Day16.Numeral | AdventOfCode/Day16/Day16.cs:41-59 | a binary numeral has exactly the requested number of digits |
| Day16.NumeralBinary | AdventOfCode/Day16/Day16.cs:41-59 | a numeral holds only '0' and '1' |
| Day16.NumeralValue | AdventOfCode/Day16/Day16.cs:74-86 | BinaryToLong reads back any value that fits the numeral's width |
| Day16.BinaryValueConcat | AdventOfCode/Day16/Day16.cs:74-86 | the value of two binary strings joined is the first shifted past the second, plus the second |
| Day16.ShiftOne | AdventOfCode/Day16/Day16.cs:78-84 | one more digit doubles the value before it, the arithmetic step of BinaryToLong |
| Day16.ParsePacket | AdventOfCode/Day16/Day16.cs:297-312 | a packet read spans at least the 7 header bits and ends inside the input |
| Day16.ParseLiteral | AdventOfCode/Day16/Day16.cs:253-287 | a literal read spans its 6 header bits and at least one 5-bit group, and is a literal |
| Day16.ParseGroups | AdventOfCode/Day16/Day16.cs:264-276 | the groups read span at least one group and end inside the input; the only failure is reading past the end |
| Day16.ParseOperator | AdventOfCode/Day16/Day16.cs:185-209 | an operator read spans at least its 7 header bits and is an operator |
| Day16.ParseByLength | AdventOfCode/Day16/Day16.cs:211-223 | the subpackets read end no earlier than totalLength bits after the start |
| Day16.ParseByCount | AdventOfCode/Day16/Day16.cs:225-236 | exactly count subpackets are read, none for a count of 0 or less |
| Day16.Values | AdventOfCode/Day16/Day16.cs:131-183 | one value per subpacket |
| Day16.Least | AdventOfCode/Day16/Day16.cs:146-149 | an element no element is below |
| Day16.Greatest | AdventOfCode/Day16/Day16.cs:150-153 | an element no element is above |
| Day16.ValueDefined | AdventOfCode/Day16/Day16.cs:131-183 | a packet has a value exactly when every operator in it has a known type code, minimum and maximum have subpackets, and comparisons have exactly two |
| Day16.ValuesDefined | AdventOfCode/Day16/Day16.cs:131-183 | a list has values exactly when every packet in it has one |
| Day16.ComparisonValue | AdventOfCode/Day16/Day16.cs:154-180 | a comparison that has a value has two subpackets with values and is 1 when greater-than, less-than or equal-to holds of them and 0 otherwise |
| Day16.ExtremeValue | AdventOfCode/Day16/Day16.cs:146-153 | a minimum or maximum is one of its subpackets' values and no subpacket's value is below, respectively above, it |
| Day16.AllPackets | AdventOfCode/Day16/Day16.cs:93-105 | the packets of a tree start with its root |
| Day16.VersionsOf | AdventOfCode/Day16/Day16.cs:93-105 | one version per packet |
| Day16.VersionsOfConcat | AdventOfCode/Day16/Day16.cs:93-105 | the versions of joined lists are the joined versions |
| Day16.VersionsOfSingle | AdventOfCode/Day16/Day16.cs:95-98 | a single packet contributes its own version |
| Day16.VersionTotalIsSum | AdventOfCode/Day16/Day16.cs:93-105 | CountAllVersionInstances is the sum of the versions of every packet in the tree, the root and all nested subpackets |
| Day16.VersionTotalsIsSum | AdventOfCode/Day16/Day16.cs:101 | the subpackets' totals add up to the versions of every packet below them |
| Day16.Groups | AdventOfCode/Day16/Day16.cs:264-276 | a literal is sent as at least one 5-bit group |
| Day16.PayloadValue | AdventOfCode/Day16/Day16.cs:284 | the payloads of a value's groups, read as binary, are the value |
| Day16.Encode | AdventOfCode/Day16/Day16.cs:297-312 | every packet is sent as at least 7 bits |
| Day16.SliceSplit | AdventOfCode/Day16/Day16.cs:297-312 | a slice holding two pieces splits into them |
| Day16.OneGroup | AdventOfCode/Day16/Day16.cs:264-276 | reading one group appends its payload, and stops exactly when its flag is '0' |
| Day16.ParseGroupsEncoded | AdventOfCode/Day16/Day16.cs:264-276 | the group loop reads back the groups of a value and yields its payload |
| Day16.SmallField | AdventOfCode/Day16/Day16.cs:189-190 | a numeral field reads back its value |
| Day16.ParseEncoded | AdventOfCode/Day16/Day16.cs:185-312 | reading the bits of a packet a transmitter can send gives back that packet and the position just after it |
| Day16.ReadEncoded | AdventOfCode/Day16/Day16.cs:61-67 | the round trip from position 0, with any padding after the packet |
| Day16.LiteralLayout | AdventOfCode/Day16/Day16.cs:253-287 | a sent literal is its header with type 4, then its groups |
| Day16.LengthLayout | AdventOfCode/Day16/Day16.cs:195-200 | a sent operator of length type '0' is its header, '0', the 15-bit length of its subpackets' bits, then those bits |
| Day16.FieldLayout | AdventOfCode/Day16/Day16.cs:185-209 | a header, a length type character, a field and the subpackets' bits split at their boundaries |
| Day16.CountLayout | AdventOfCode/Day16/Day16.cs:201-206 | a sent operator of length type '1' is its header, '1', the 11-bit count of its subpackets, then their bits |
| Day16.HeaderFields | AdventOfCode/Day16/Day16.cs:189-190 | the header's two 3-bit fields read back the version and the type code |
| Day16.ParseEncodedLiteral | AdventOfCode/Day16/Day16.cs:253-287 | a sent literal reads back as that literal |
| Day16.ParseLengthOperator | AdventOfCode/Day16/Day16.cs:195-200 | a sent operator of length type '0' reads back as that operator |
| Day16.ParseCountOperator | AdventOfCode/Day16/Day16.cs:201-206 | a sent operator of length type '1' reads back as that operator |
| Day16.OperatorByLength | AdventOfCode/Day16/Day16.cs:195-200 | an operator of length type '0' holds the subpackets read by length |
| Day16.OperatorByCount | AdventOfCode/Day16/Day16.cs:201-206 | an operator of length type '1' holds the subpackets read by count |
| Day16.LengthStep | AdventOfCode/Day16/Day16.cs:216-220 | one more packet read while short of the length is prepended to the rest |
| Day16.CountStep | AdventOfCode/Day16/Day16.cs:229-233 | one more packet read while the count is positive is prepended to the rest |
| Day16.ParseAllByLength | AdventOfCode/Day16/Day16.cs:211-223 | reading by length the bits of a list of sent packets, with the length they take, gives back that list |
| Day16.ParseAllByCount | AdventOfCode/Day16/Day16.cs:225-236 | reading by count the bits of a list of sent packets, with their count, gives back that list |
| Day16.Value | AdventOfCode/Day16/Day16.cs:131-183 | a packet's value by its type code; ValueDefined, ComparisonValue and ExtremeValue state when it has one and what minima, maxima and comparisons give |
| Day16Read.BinaryToLong | AdventOfCode/Day16/Day16.cs:74-86 | the loop from the last digit with a doubling shifter computes the binary value of the string |
| Day16Read.ConvertToBinary | AdventOfCode/Day16/Day16.cs:107-117 | the table lookup loop computes the binary conversion, failing with KeyNotFoundException at the first character outside the table |
| Day16Read.PrefixFails | AdventOfCode/Day16/Day16.cs:111-114 | a prefix that fails makes the whole conversion fail the same way |
| Day16Read.ReadPacket | AdventOfCode/Day16/Day16.cs:297-312 | the cursor-based reader computes the packet reader's result |
| Day16Read.ReadLiteralPacket | AdventOfCode/Day16/Day16.cs:253-287 | the group loop with its cursor computes the literal reader's result |
| Day16Read.ReadOperatorPacket | AdventOfCode/Day16/Day16.cs:185-209 | the cursor-based operator reader computes the operator reader's result |
| Day16Read.Prepend | AdventOfCode/Day16/Day16.cs:214-222 | the packets read so far followed by the rest, failing exactly when the rest does |
| Day16Read.PrependStep | AdventOfCode/Day16/Day16.cs:219 | appending one more packet to those read is prepending it to the rest |
| Day16Read.ReadSubpacketsByLength | AdventOfCode/Day16/Day16.cs:211-223 | the while loop computes the by-length reader's result |
| Day16Read.ReadSubpacketsByCount | AdventOfCode/Day16/Day16.cs:225-236 | the for loop computes the by-count reader's result |
| Day16Read.MultiplyAll | AdventOfCode/Day16/Day16.cs:139-144 | the product loop computes the product of the values |
| Day17.VelocityClosedForm | AdventOfCode/Day17/Day17.cs:96-99 | after k steps the vertical velocity has dropped by k, and a non-negative horizontal velocity has dropped by k but not below 0 |
| Day17.Flight | AdventOfCode/Day17/Day17.cs:90-113 | a path found is never empty |
| Day17.FlightHits | AdventOfCode/Day17/Day17.cs:90-106 | the rest of a flight that hits lists the launch's positions in order; its last position is in the area and no earlier one is |
| Day17.PathHits | AdventOfCode/Day17/Day17.cs:83-114 | a path from the origin lists the launch's positions from the first step on, ends at the first position inside the area and holds no earlier one |
| Day17.StaysBelow | AdventOfCode/Day17/Day17.cs:107-110 | once the probe falls below the area, it goes on falling below it |
| Day17.FlightMisses | AdventOfCode/Day17/Day17.cs:107-113 | when the loop gives up, no later position is in the area |
| Day17.PathMisses | AdventOfCode/Day17/Day17.cs:83-114 | GetPath returns null exactly when no position of the launch is ever in the area: giving up loses no hit |
| Day17.GetPath | AdventOfCode/Day17/Day17.cs:83-114 | the step loop computes the path of the launch, or null |
| Day17.ScanOne | AdventOfCode/Day17/Day17.cs:72-76 | trying one more velocity keeps the list exactly the hitting velocities tried so far, in scan order |
| Day17.ScanColumn | AdventOfCode/Day17/Day17.cs:68-70 | the end of one column of the scan is the start of the next |
| Day17.FindValidVelocities | AdventOfCode/Day17/Day17.cs:65-81 | a velocity is listed exactly when it lies in the scanned range and its launch hits the area; the list is in scan order with no repeats |
| Day17.Peak | AdventOfCode/Day17/Day17.cs:52 | the greatest height among the positions, reached by one of them |
| Day17.TryOne | AdventOfCode/Day17/Day17.cs:49-57 | a strictly higher peak replaces the best; otherwise the best stays |
| Day17.NextColumn | AdventOfCode/Day17/Day17.cs:45-47 | the end of one column of the search is the start of the next |
| Day17.FindMaximumY | AdventOfCode/Day17/Day17.cs:40-63 | null when no tried velocity hits; otherwise the path of a tried velocity whose peak no tried velocity beats, the first such in scan order |
| Day18.Leaves | AdventOfCode/Day18/Day18.cs:289-294 | every snailfish number has at least one regular number, read left to right |
| Day18.Around | AdventOfCode/Day18/Day18.cs:200-250 | the leaves of a tree are those left of a node, the node's own leaves, and those right of it; as many lie left of it as the path counts |
| Day18.ReplaceAround | AdventOfCode/Day18/Day18.cs:178-180 | replacing the node at a path keeps every leaf left and right of it and puts the new subtree's leaves in between |
| Day18.SubLeaves | AdventOfCode/Day18/Day18.cs:200-250 | the leaves under a node are the contiguous run of the tree's leaves starting at the count of leaves before it |
| Day18.ReplaceLeaves | AdventOfCode/Day18/Day18.cs:178-180 | replacing a node replaces exactly its run of leaves in the tree's leaf sequence |
| Day18.PathConcat | AdventOfCode/Day18/Day18.cs:292-294 | following a path a then b is following a and then b from the node reached, and the leaves before it add up |
| Day18.PathExtend | AdventOfCode/Day18/Day18.cs:292-294 | a path valid from a node reached by a extends a to a path valid from the root, with the leaves before it adding up |
| Day18.SameShapeLeaves | AdventOfCode/Day18/Day18.cs:168-176 | two trees of the same shape have as many leaves |
| Day18.SameShapeTrans | AdventOfCode/Day18/Day18.cs:168-176 | having the same shape is transitive |
| Day18.SameShapeAt | AdventOfCode/Day18/Day18.cs:168-176 | a path valid in a tree is valid in any tree of its shape, reaching a node of the same shape, kind and leaf position |
| Day18.ReplaceLeafShape | AdventOfCode/Day18/Day18.cs:170-175 | changing a regular number's value leaves the tree's shape unchanged |
| Day18.SameShapeRefl | AdventOfCode/Day18/Day18.cs:168-176 | every tree has its own shape |
| Day18.Weights | AdventOfCode/Day18/Day18.cs:361-372 | there is one magnitude weight per regular number |
| Day18.DotConcat | AdventOfCode/Day18/Day18.cs:370 | the weighted sum over two concatenated halves is the sum of the halves' weighted sums |
| Day18.DotScale | AdventOfCode/Day18/Day18.cs:370 | scaling every weight by c scales the weighted sum by c |
| Day18.MagnitudeWeighted | AdventOfCode/Day18/Day18.cs:361-372 | a magnitude is the sum of the regular numbers, each times 3 per left step and 2 per right step on its path |
| Day18.WeightsPositive | AdventOfCode/Day18/Day18.cs:361-372 | every regular number counts towards the magnitude with weight at least 1 |
| Day18.ScalePositive | AdventOfCode/Day18/Day18.cs:370 | scaling positive weights by a positive factor keeps them positive and at least c times as large |
| Day18.DigitsEnd | AdventOfCode/Day18/Day18.cs:108-119 | the index returned lies between i and the end of the text, and the character at it is not a digit |
| Day18.DigitsEndDigits | AdventOfCode/Day18/Day18.cs:112-116 | every character from i up to where DigitsEnd stops is a digit |
| Day18.ParseNode | AdventOfCode/Day18/Day18.cs:75-106 | a successful parse consumes at least one character, stays within the text and yields a tree whose pairs carry 0 and whose leaves fit an int |
| Day18.ParseNodeLeaf | AdventOfCode/Day18/Day18.cs:77-80 | a node that starts with a digit is the leaf int.Parse reads from the run of digits, with int.Parse's errors |
| Day18.ParseRest | AdventOfCode/Day18/Day18.cs:87-100 | a successful parse of a pair's comma, right child and bracket ends after the left child and within the text, with a well-formed tree |
| Day18.ClosePair | AdventOfCode/Day18/Day18.cs:94-100 | a closed pair ends past the comma and within the text, and is well formed |
| Day18.ParseValue | AdventOfCode/Day18/Day18.cs:108-119 | the loop stops at the end of the run of digits and the value is the run's digits read as an int |
| Day18Text.LeafText | AdventOfCode/Day18/Day18.cs:347-350 | a regular number is formatted as its decimal digits, and reading those digits back gives the number |
| Day18Text.ParseFormatted | AdventOfCode/Day18/Day18.cs:75-106 | parsing at a place where a tree's formatted text sits reads that tree and stops right after its text |
| Day18Text.ParseFormattedPair | AdventOfCode/Day18/Day18.cs:82-100 | when both children's texts sit after '[' and ',' and a ']' follows, parsing at the bracket reads the pair of the two children |
| Day18Text.PairText | AdventOfCode/Day18/Day18.cs:351-358 | the text of a pair is '[', the left child's text, ',', the right child's text, ']' |
| Day18Text.ParsePairStep | AdventOfCode/Day18/Day18.cs:82-100 | a bracket, a left child, a comma, a right child and a closing bracket parse as the pair of the two children |
| Day18Text.CloseStep | AdventOfCode/Day18/Day18.cs:87-100 | a comma, a right child and a closing bracket after a left child finish the pair |
| Day18Text.OpenStep | AdventOfCode/Day18/Day18.cs:82-86 | an opening bracket followed by a left child continues with the rest of the pair |
| Day18Text.ParseLeafText | AdventOfCode/Day18/Day18.cs:77-80 | the digits of a regular number, not followed by a digit, parse as that leaf |
| Day18Text.DigitsEndIs | AdventOfCode/Day18/Day18.cs:112-116 | the run of digits ends at the first non-digit |
| Day18Text.ParseFormat | AdventOfCode/Day18/Day18.cs:65-73 | parsing the formatted text of any tree the parser can produce gives back that tree |
| Day18Reduce.LastTurn | AdventOfCode/Day18/Day18.cs:204-215 | the climb stops at the last step of the path taken to the given side, and finds none when the path never goes that way |
| Day18Reduce.Outermost | AdventOfCode/Day18/Day18.cs:217-221 | descending always to one side reaches a leaf, the first or the last one in leaf order |
| Day18Reduce.Fork | AdventOfCode/Day18/Day18.cs:210-217 | every node on a path is a pair whose left and right children are one step further, with the left child starting the pair's leaves |
| Day18Reduce.AllLeftBefore | AdventOfCode/Day18/Day18.cs:206-208 | a node reached by left steps only has no leaf to its left |
| Day18Reduce.AllRightAfter | AdventOfCode/Day18/Day18.cs:232-234 | a node reached by right steps only has no leaf to its right |
| Day18Reduce.NextLeftSpec | AdventOfCode/Day18/Day18.cs:200-224 | the next-left search finds a node exactly when a leaf lies left of the start, and it finds the leaf just before it |
| Day18Reduce.NextRightSpec | AdventOfCode/Day18/Day18.cs:226-250 | the next-right search finds a node exactly when a leaf lies right of the start's leaves, and it finds the leaf just after them |
| Day18Reduce.LastStep | AdventOfCode/Day18/Day18.cs:210-217 | the node where the climb stops splits the leaves at the start's edge |
| Day18Reduce.Descend | AdventOfCode/Day18/Day18.cs:217-221 | descending from the sibling subtree to its inner edge reaches the leaf next to the start |
| Day18Reduce.FindNextLeftNode | AdventOfCode/Day18/Day18.cs:200-224 | the two loops find the leaf just left of the node, if any |
| Day18Reduce.FindNextRightNode | AdventOfCode/Day18/Day18.cs:226-250 | the two loops find the leaf just right of the node, if any |
| Day18Reduce.ClimbTo | AdventOfCode/Day18/Day18.cs:204-215 | the climbing loop stops at the last step taken to the given side |
| Day18Reduce.DescendTo | AdventOfCode/Day18/Day18.cs:217-221 | the descending loop follows one side down to a leaf |
| Day18Reduce.OneStep | AdventOfCode/Day18/Day18.cs:292-294 | one step from a pair reaches its child on that side |
| Day18Reduce.AddToLeafShape | AdventOfCode/Day18/Day18.cs:168-176 | adding to a neighbouring regular number keeps the tree's shape |
| Day18Reduce.KeepsLeaf | AdventOfCode/Day18/Day18.cs:168-176 | a leaf stays a leaf at the same leaf position in a tree of the same shape |
| Day18Reduce.LeafUpdate | AdventOfCode/Day18/Day18.cs:170-175 | changing a leaf changes exactly its entry in the leaf sequence |
| Day18Reduce.AddToLeafLeaves | AdventOfCode/Day18/Day18.cs:168-176 | adding d to a found leaf adds d to that one entry of the leaf sequence; with no leaf found the tree is unchanged |
| Day18Reduce.ExplodeSeq | AdventOfCode/Day18/Day18.cs:163-181 | the leaf sequence after an explosion is the left part with the pair's left value added to its last entry, a 0, and the right part with the right value added to its first entry |
| Day18Reduce.ExplodeLeaves | AdventOfCode/Day18/Day18.cs:163-181 | exploding a pair adds its left value to the leaf before it, its right value to the leaf after it, and replaces its leaves with one 0 |
| Day18Reduce.ExplodeLeft | AdventOfCode/Day18/Day18.cs:168-171 | the leaves left of the exploding pair change only by the left value added to the last of them |
| Day18Reduce.ExplodeRight | AdventOfCode/Day18/Day18.cs:173-176 | the leaves right of the exploding pair change only by the right value added to the first of them |
| Day18Reduce.FeedLeft | AdventOfCode/Day18/Day18.cs:165-171 | adding the left value to the next-left leaf keeps the shape and changes the leaf just before the pair, if there is one |
| Day18Reduce.FeedRight | AdventOfCode/Day18/Day18.cs:166-176 | adding the right value to the next-right leaf keeps the shape and changes the leaf just after the pair, if there is one |
| Day18Reduce.ExplodeTail | AdventOfCode/Day18/Day18.cs:178-180 | turning the exploded pair into the leaf 0 replaces its leaves by one 0 |
| Day18Reduce.SplitLeaves | AdventOfCode/Day18/Day18.cs:183-198 | splitting a regular number v replaces it in the leaf sequence by v/2 rounded down and v/2 rounded up, which add up to v |
| Day18Search.ConsStep | AdventOfCode/Day18/Day18.cs:264-270 | a path that starts with a step is that step followed by a path in the child |
| Day18Search.FindExplodee | AdventOfCode/Day18/Day18.cs:252-271 | a node found is a pair at the explode depth |
| Day18Search.FindExplodeeSpec | AdventOfCode/Day18/Day18.cs:252-271 | the node found is the leftmost pair at the explode depth, and when none is found no pair sits at that depth |
| Day18Search.ExplodeePair | AdventOfCode/Day18/Day18.cs:264-270 | the leftmost pair at a depth is the leftmost in the left child, or failing that in the right child |
| Day18Search.PairAbove | AdventOfCode/Day18/Day18.cs:259-262 | every node above a pair is a pair |
| Day18Search.FindSplitee | AdventOfCode/Day18/Day18.cs:273-287 | a node found is a regular number |
| Day18Search.FindSpliteeSpec | AdventOfCode/Day18/Day18.cs:273-287 | the node found is the leftmost regular number at least the limit, and none is found exactly when every regular number is below it |
| Day18Search.SingleReduceStepSpec | AdventOfCode/Day18/Day18.cs:145-161 | a step explodes the leftmost pair nested four deep if there is one, otherwise splits the leftmost number of 10 or more, and does nothing exactly on a reduced number |
| Day18Search.ReduceForReduced | AdventOfCode/Day18/Day18.cs:137-143 | whatever the reduction loop ends with is reduced |
| Day18Search.ReduceForIdle | AdventOfCode/Day18/Day18.cs:137-143 | a reduced number is left as it is |
| Day18Search.ReduceForMoreFuel | AdventOfCode/Day18/Day18.cs:137-143 | once the reduction has finished, allowing more steps changes nothing |
| Day18Search.Reduce | AdventOfCode/Day18/Day18.cs:137-143 | the loop repeats single steps until none applies, and ends with a reduced number |
| Day18Search.Add | AdventOfCode/Day18/Day18.cs:121-135 | the sum is the pair of the two numbers, reduced |
| Day18Search.SumFromReduced | AdventOfCode/Day18/Day18.cs:46-56 | adding a non-empty list onto a number ends with a reduced number |
| Day18Search.AddAll | AdventOfCode/Day18/Day18.cs:46-56 | the list is added left to right starting from its first number, the empty list is an error, and a sum of two or more is reduced |
| Day18Search.ScanOne | AdventOfCode/Day18/Day18.cs:31-39 | the inner loop's step keeps the greatest magnitude of the sums seen so far |
| Day18Search.SkipOne | AdventOfCode/Day18/Day18.cs:31 | a pair of indexes that is not counted leaves the greatest magnitude as it is |
| Day18Search.RowStart | AdventOfCode/Day18/Day18.cs:31 | the inner loop starts after first, passing no counted pair |
| Day18Search.RowEnd | AdventOfCode/Day18/Day18.cs:29-31 | the end of a row moves the scan to the next first index |
| Day18Search.ScanDone | AdventOfCode/Day18/Day18.cs:29-43 | once the outer loop ends, the value held is the largest magnitude over the pairs counted, or 0 |
| Day18Search.FindLargestMagnitude | AdventOfCode/Day18/Day18.cs:26-44 | the result is the largest magnitude of first + second over first before second in the list, or 0 when there is none |
| Day18Search.FindLargestMagnitudeEitherOrder | AdventOfCode/Day18/Day18.cs:26-44 | the result is the largest magnitude of a sum of two different numbers of the list in either order |
| Day18Search.OneOrderMissesLarger | AdventOfCode/Day18/Day18.cs:29-33 | for [[1,1],[2,2]] the loop as written answers 35, while the largest sum of two different numbers is 40 |
| Day18Search.SmallSum | AdventOfCode/Day18/Day18.cs:121-135 | the sum of two pairs of single digits needs no reduction |
| Day18Search.Copy | AdventOfCode/Day18/Day18.cs:301-333 | a copy is equal to the original |
| Day18.Magnitude | AdventOfCode/Day18/Day18.cs:361-372 | a regular number's magnitude is its value and a pair's is 3 times the left's plus 2 times the right's; MagnitudeWeighted and WeightsPositive state what that adds up to |
| Day18Reduce.Explode | AdventOfCode/Day18/Day18.cs:163-181 | an explosion at a path; ExplodeLeaves states its effect on the leaf sequence and ExplodeLeft and ExplodeRight the parts beside the pair |
| Day18Reduce.Split | AdventOfCode/Day18/Day18.cs:183-198 | a split at a path; SplitLeaves states that the regular number v becomes v/2 rounded down and v/2 rounded up in the leaf sequence |
| Day18Search.SingleReduceStep | AdventOfCode/Day18/Day18.cs:145-161 | one reduction step; SingleReduceStepSpec states that it explodes the leftmost pair four deep if there is one, else splits the leftmost number of 10 or more, else reports nothing to do |
| Day18Search.ReduceFor | AdventOfCode/Day18/Day18.cs:137-143 | the reduction loop with a step bound; ReduceForReduced, ReduceForIdle and ReduceForMoreFuel state that its result is reduced, that a reduced number stays and that more steps change nothing |
| Day19.Subtract | AdventOfCode/Day19/Day19.cs:258-261 | the difference is the offset that, added to the first point, gives the second |
| Day19.SubtractThenAdd | AdventOfCode/Day19/Day19.cs:258-266 | adding the difference from a to b back onto a gives b |
| Day19.AddCommutes | AdventOfCode/Day19/Day19.cs:263-266 | adding points is commutative and has the origin as its identity |
| Day19.SubtractAntisymmetric | AdventOfCode/Day19/Day19.cs:258-266 | a point's difference from itself is the origin, and the differences a to b and b to a cancel out |
| Day19.Neg | AdventOfCode/Day19/Day19.cs:206-217 | negating an axis flips whether it is a negated axis |
| Day19.ValueByAxis | AdventOfCode/Day19/Day19.cs:462-472 | the value read is one of the point's three coordinates |
| Day19.NegInvolution | AdventOfCode/Day19/Day19.cs:206-217 | negating an axis twice gives it back, never gives the same axis, and, as written, reads the same coordinate |
| Day19.AxesRead | AdventOfCode/Day19/Day19.cs:462-472 | X, Y and Z read the x, y and z coordinates |
| Day19.MakeUnorderedPair | AdventOfCode/Day19/Day19.cs:708-717 | the pair holds the two numbers, the smaller first |
| Day19.UnorderedPairSymmetric | AdventOfCode/Day19/Day19.cs:708-723 | the pair does not depend on the order the two numbers are given in |
| Day19.MakeAbsoluteDistance | AdventOfCode/Day19/Day19.cs:361-368 | the three fields are the absolute values of x, y and z in ascending order |
| Day19.Sort3 | AdventOfCode/Day19/Day19.cs:363 | three numbers come out in ascending order |
| Day19.Sort3Multiset | AdventOfCode/Day19/Day19.cs:363 | sorting three numbers keeps the same three numbers |
| Day19.SortedUnique | AdventOfCode/Day19/Day19.cs:363-367 | two sorted triples of the same three numbers are equal |
| Day19.AbsoluteDistanceInvariant | AdventOfCode/Day19/Day19.cs:355-384 | offsets whose absolute values are the same three numbers have equal absolute distances |
| Day19.AbsoluteDistanceFlips | AdventOfCode/Day19/Day19.cs:361-368 | flipping the sign of any coordinate keeps the absolute distance |
| Day19.Sort3Permutations | AdventOfCode/Day19/Day19.cs:363 | swapping or rotating the three numbers gives the same sorted triple |
| Day19.AbsoluteDistancePermutations | AdventOfCode/Day19/Day19.cs:361-368 | swapping or rotating the coordinates keeps the absolute distance, so every permutation does |
| Day19.Row | AdventOfCode/Day19/Day19.cs:142-150 | the inner loop meets, in order, the difference from the outer point to each point of the second list |
| Day19.RowStep | AdventOfCode/Day19/Day19.cs:142-150 | each step of the inner loop meets one more difference |
| Day19.Offsets | AdventOfCode/Day19/Day19.cs:140-151 | the two loops meet one difference for every pair of points |
| Day19.Distinct | AdventOfCode/Day19/Day19.cs:138-149 | the dictionary's keys in insertion order: each difference met exactly once |
| Day19.CountOne | AdventOfCode/Day19/Day19.cs:145-149 | counting one more difference keeps each count equal to how often its difference was met, adding a key only the first time |
| Day19.CountOffsets | AdventOfCode/Day19/Day19.cs:138-151 | the counts hold, for every difference met, how often it was met, and the keys list the differences in the order first met |
| Day19.CountRow | AdventOfCode/Day19/Day19.cs:142-150 | the inner loop adds the differences from one point to the counts |
| Day19.CountNext | AdventOfCode/Day19/Day19.cs:144-149 | one inner step counts one more difference |
| Day19.GetOverlaps | AdventOfCode/Day19/Day19.cs:136-157 | an empty list is an error (Max of an empty dictionary); otherwise the result is a difference met most often, with its count, at least 1, and the first such difference met |
| Day19.MaxValue | AdventOfCode/Day19/Day19.cs:153 | the value is one of the counts and no count is greater |
| Day19.FirstWithValue | AdventOfCode/Day19/Day19.cs:154 | the key found is the first one in dictionary order that has the value |
| Day19.RowTally | AdventOfCode/Day19/Day19.cs:142-150 | when the second list has no repeated point, one point meets each difference at most once |
| Day19.TallyBound | AdventOfCode/Day19/Day19.cs:136-157 | when the second list has no repeated point, no difference is met more often than the first list is long |
| Day19.GetDeltas | AdventOfCode/Day19/Day19.cs:424-429 | there is one delta per adjacent pair of values, each the later value less the earlier |
| Day19.DeltasRebuild | AdventOfCode/Day19/Day19.cs:424-429 | the first value plus the first k deltas is value k |
| Day20.LitValue | AdventOfCode/Day20/Day20.cs:95-111 | the value of n characters, '#' read as 1 and the last character lowest, is below 2 to the n |
| Day20.LitValueSame | AdventOfCode/Day20/Day20.cs:102-105 | only where the '#' characters are matters to the value |
| Day20.LitValueConst | AdventOfCode/Day20/Day20.cs:95-111 | n '#' characters read as 2 to the n less 1 and n other characters read as 0 |
| Day20.GetIntFromBinary | AdventOfCode/Day20/Day20.cs:95-111 | the loop from the last character back, doubling the shifter, computes the big-endian value with '#' as 1 |
| Day20.Neighbourhood | AdventOfCode/Day20/Day20.cs:162-169 | every pixel has nine neighbourhood points |
| Day20.Window | AdventOfCode/Day20/Day20.cs:65-66 | the block of a pixel, read row by row, is nine characters |
| Day20.NextImage | AdventOfCode/Day20/Day20.cs:53-78 | the next image's bounds are the old ones grown by 1 on every side |
| Day20.NextImageIs | AdventOfCode/Day20/Day20.cs:53-78 | the next image has grown bounds, every lit point lies inside them, and a pixel inside them is lit exactly when the algorithm's character at its block's value is '#' |
| Day20.StepsWindow | AdventOfCode/Day20/Day20.cs:27-38 | after n steps the bounds have grown by n on every side |
| Day20.TrueWindow | AdventOfCode/Day20/Day20.cs:158-172 | the unbounded image read at a list of points gives one character per point |
| Day20.TrueWindowIndex | AdventOfCode/Day20/Day20.cs:158-172 | each character of the read is the unbounded image at that point |
| Day20.TrueStep | AdventOfCode/Day20/Day20.cs:59-75 | when the image agrees with the unbounded image, one step of both looks up the same character for every pixel |
| Day20.OutsideWindow | AdventOfCode/Day20/Day20.cs:174-186 | a pixel outside the grown bounds sees nine border pixels, so it looks up the algorithm's first character, or its last when the border is lit |
| Day20.PlaneStep | AdventOfCode/Day20/Day20.cs:27-38 | agreement with the unbounded image carries over one step, the border read with the other parity |
| Day20.WindowTracksPlane | AdventOfCode/Day20/Day20.cs:27-38 | when the algorithm's first or last character is unlit, every pixel of the image after n steps, border included, reads as the unbounded image after n steps |
| Day20.LitPixels | AdventOfCode/Day20/Day20.cs:24-38 | the lit points after n steps are exactly the lit pixels of the unbounded image inside the bounds, and outside them it is lit only after an odd step with a lit first character |
| Day20.GetPixelBlock | AdventOfCode/Day20/Day20.cs:158-189 | block[y+1, x+1] holds the value of the pixel at (p.X + x, p.Y + y): '#' when lit inside the bounds, and the algorithm's first character on odd steps or '.' on even ones outside them |
| Day20.Row | AdventOfCode/Day20/Day20.cs:86-89 | a row of the block holds its entries in order |
| Day20.RowsOfThree | AdventOfCode/Day20/Day20.cs:80-93 | a 3 by 3 block read row by row has nine characters, entry k being row k/3, column k%3 |
| Day20.GetBinaryFromBlock | AdventOfCode/Day20/Day20.cs:80-93 | the two loops append the block's entries row by row |
| Day20.ReadPixel | AdventOfCode/Day20/Day20.cs:65-66 | the block read row by row is the pixel's nine-character window |
| Day20.GetNextImage | AdventOfCode/Day20/Day20.cs:53-78 | the two loops build the next image |
| Day20.NextColumn | AdventOfCode/Day20/Day20.cs:61-74 | the inner loop adds exactly the pixels of its column whose lookup is '#' |
| Day20.ProcessSteps | AdventOfCode/Day20/Day20.cs:27-38 | the loop applies the given number of steps, the border read as odd on every odd-numbered step |
| Day21.Start | AdventOfCode/Day21/Day21.cs:22-26 | a new game starts with no points, no rolls and player 1 to move, the 1-based spaces stored 0-based on the board |
| Day21.AdvanceMovesMover | AdventOfCode/Day21/Day21.cs:156-186 | a turn moves only the player to move, by the roll sum round the ten spaces, adds the new space's number to that player's score and passes the turn to the other player |
| Day21.AdvanceScores | AdventOfCode/Day21/Day21.cs:166-175 | a turn raises the mover's score by 1 to 10 and no score ever falls |
| Day21.GetWinner | AdventOfCode/Day21/Day21.cs:191-201 | the winner is player 1 exactly when player 1's score is strictly higher, otherwise player 2, and the winner's score is the higher one |
| Day21.GetLoser | AdventOfCode/Day21/Day21.cs:203-213 | as written, the score returned is the lower one and the index is that of the other player |
| Day21.LoserIsWinner | AdventOfCode/Day21/Day21.cs:191-213 | at 5 points to 21 the loser as written names player 2, who is also the winner |
| Day21.ScoreOfLoser | AdventOfCode/Day21/Day21.cs:191-201 | the loser consistent with GetWinner is player 1 unless player 1's score is strictly higher, with that player's score |
| Day21.WinnerIsNotLoser | AdventOfCode/Day21/Day21.cs:191-201 | the corrected loser is never the winner, has the lower score, and never scores more than the winner |
| Day21.RollAtFirstRound | AdventOfCode/Day21/Day21.cs:281-293 | the deterministic die rolls 1, 2, 3, … up to its number of sides, and always a value from 1 to the sides |
| Day21.RollAtPeriodic | AdventOfCode/Day21/Day21.cs:281-293 | the die's rolls repeat once every number of sides |
| Day21.DeterministicDice.constructor | AdventOfCode/Day21/Day21.cs:273-279 | a new die has the given sides and has not been rolled |
| Day21.DeterministicDice.Roll | AdventOfCode/Day21/Day21.cs:281-293 | a roll returns the die's next value in its cycle and counts one more roll |
| Day21.GameRoll | AdventOfCode/Day21/Day21.cs:215-223 | three rolls in a row return the die's next three values |
| Day21.TakeTurn | AdventOfCode/Day21/Day21.cs:156-186 | a turn rolls the die three times and moves the player to move by the sum, counting three more rolls |
| Day21.AddMonoid | AdventOfCode/Day21/Day21.cs:253-268 | adding outcomes is commutative and associative, with no outcomes as its identity |
| Day21.Times | AdventOfCode/Day21/Day21.cs:140-152 | adding an outcome k times multiplies both players' win counts by k |
| Day21.Table | AdventOfCode/Day21/Day21.cs:55-129 | there is one entry per roll sum 0 to 9 |
| Day21.FinishedCountsOnce | AdventOfCode/Day21/Day21.cs:98-124 | a turn that ends the game counts one universe, won by player 1 exactly when GetWinner names player 1 |
| Day21.UniversesCount | AdventOfCode/Day21/Day21.cs:33-50 | from any state the players win in at least 27 universes between them, and neither count is negative |
| Day21.AfterRollsCount | AdventOfCode/Day21/Day21.cs:55-129 | each roll sum leads to at least one won universe, and neither count is negative |
| Day21.WeightedCount | AdventOfCode/Day21/Day21.cs:131-154 | weighting entries of one or more universes each gives at least one universe per roll triple |
| Day21.StateOf | AdventOfCode/Day21/Day21.cs:52-53 | every key is the key of some state |
| Day21.KeyifyInjective | AdventOfCode/Day21/Day21.cs:52-53 | two states share a key exactly when they differ at most in their roll count |
| Day21.UniversesIgnoreRollCount | AdventOfCode/Day21/Day21.cs:52-53 | the universes from a state do not depend on its roll count, so the key needs none |
| Day21.TurnIgnoresRollCount | AdventOfCode/Day21/Day21.cs:55-89 | the universes after a turn do not depend on the roll count |
| Day21.KnownOutcomes.constructor | AdventOfCode/Day21/Day21.cs:28 | the memo starts empty |
| Day21.ThreeRollsSum | AdventOfCode/Day21/Day21.cs:57 | three Dirac rolls sum to between 3 and 9 |
| Day21.LastRoll | AdventOfCode/Day21/Day21.cs:142-150 | the third level of the branching adds the entries for sums a+b+1, a+b+2 and a+b+3 |
| Day21.FirstRoll | AdventOfCode/Day21/Day21.cs:142-150 | below a first roll a the branching reaches sums a+2 to a+6 in 1, 2, 3, 2 and 1 ways |
| Day21.BranchCountsWays | AdventOfCode/Day21/Day21.cs:131-154 | branching three times over 1, 2 and 3 reaches each roll sum as often as three Dirac rolls can give it |
| Day21.WeightedAll | AdventOfCode/Day21/Day21.cs:131-154 | the sums 3 to 9 are reached in 1, 3, 6, 7, 6, 3 and 1 of the 27 ways |
| Day21.Recalled | AdventOfCode/Day21/Day21.cs:37-40 | a remembered outcome is the universes of its state |
| Day21.Remembered | AdventOfCode/Day21/Day21.cs:44-47 | storing the universes of a state keeps every remembered outcome right |
| Day21.TakeNdTurn | AdventOfCode/Day21/Day21.cs:33-50 | the outcome returned is the universes from the state, the memo stays right and only grows, and it now holds the state |
| Day21.DoNdRollsComplete | AdventOfCode/Day21/Day21.cs:55-129 | after three rolls the outcome is one win for the winner if the turn ends the game, the universes of the next state otherwise |
| Day21.DoNdRolls | AdventOfCode/Day21/Day21.cs:131-154 | the outcome is the sum over every way to finish the three rolls, the memo staying right |
| Day21.Solve | AdventOfCode/Day21/Day21.cs:18-31 | the outcome for the starting spaces is the number of universes each player wins |
| Day21.IsGameOver | AdventOfCode/Day21/Day21.cs:188-189 | the game is over once either score reaches the winning points; FinishedCountsOnce and UniversesCount state how a finished game is counted |
| Day22.Range.Intersect | AdventOfCode/Day22/Day22.cs:380-386 | a value lies in the intersection exactly when it lies in both ranges, and the intersection is non-empty exactly when both ranges are and they overlap |
| Day22.RangeSize | AdventOfCode/Day22/Day22.cs:364-372 | a range is valid exactly when it holds its minimum, and exactly when its size is at least 1 |
| Day22.Cube.With | AdventOfCode/Day22/Day22.cs:113-143 | replacing one axis's range changes that axis only |
| Day22.Cube.GetContainedPoint | AdventOfCode/Day22/Day22.cs:334-335 | the corner point lies in the cube exactly when the cube is valid |
| Day22.Cube.Intersect | AdventOfCode/Day22/Day22.cs:350-356 | a point lies in the intersection of two cubes exactly when it lies in both |
| Day22.ContainsByAxis | AdventOfCode/Day22/Day22.cs:347-348 | a cube holds a point exactly when each axis's range holds the point's coordinate on it |
| Day22.MeetsIff | AdventOfCode/Day22/Day22.cs:460 | a node's bounds intersected with a cube are valid exactly when the two share a point |
| Day22.InsideCovers | AdventOfCode/Day22/Day22.cs:296-304 | a cube inside another, range by range, holds none of the points the other lacks |
| Day22.InsideTransitive | AdventOfCode/Day22/Day22.cs:296-304 | lying inside is transitive |
| Day22.ExpandRange | AdventOfCode/Day22/Day22.cs:287-293 | the widened range spans both ranges, each end taken from one of them |
| Day22.ExpandCube | AdventOfCode/Day22/Day22.cs:296-304 | the widened cube holds both cubes |
| Day22.ReadBounds | AdventOfCode/Day22/Day22.cs:255-277 | widening after each axis of a flip, while the axes not read yet are 0..0, ends with bounds that hold the old bounds and the flip's cube |
| Day22.BoundsOf | AdventOfCode/Day22/Day22.cs:239-285 | the bounds read hold the cube of every flip |
| Day22.CountConcat | AdventOfCode/Day22/Day22.cs:100-109 | the cubes of two lists holding a point add up |
| Day22.CountAtMostOne | AdventOfCode/Day22/Day22.cs:100-109 | cubes that never hold a point twice between them are pairwise disjoint |
| Day22.CountHolds | AdventOfCode/Day22/Day22.cs:100-109 | a point in one of the cubes is counted |
| Day22.SumVolumesConcat | AdventOfCode/Day22/Day22.cs:61 | the volume sum of two lists adds up |
| Day22.PlanarSplit | AdventOfCode/Day22/Day22.cs:112-207 | a planar split gives at most two non-empty pieces of the cube, one below the plane and one at or above it, that keep the other axes and together hold each of the cube's points once |
| Day22.WithContains | AdventOfCode/Day22/Day22.cs:113-143 | a cube with one axis replaced holds a point exactly when the new range holds its coordinate and the other axes hold theirs |
| Day22.PlanarSplitVolume | AdventOfCode/Day22/Day22.cs:112-207 | the pieces' volumes add up to the cube's volume |
| Day22.VolumeAdds | AdventOfCode/Day22/Day22.cs:337-340 | cutting one axis into two ranges whose sizes add up splits the volume the same way |
| Day22.SplitAll | AdventOfCode/Day22/Day22.cs:101-107 | splitting every cube along a plane keeps how many cubes hold each point, and every piece lies on one side |
| Day22.SplitAllPieces | AdventOfCode/Day22/Day22.cs:101-107 | every piece after a split comes from one of the cubes before it |
| Day22.Outside | AdventOfCode/Day22/Day22.cs:109 | the filter keeps exactly the pieces whose corner the cutter does not hold |
| Day22.AlignedCorner | AdventOfCode/Day22/Day22.cs:109 | for a piece cut along the cutter's planes, the cutter holds any of its points exactly when it holds its corner |
| Day22.OutsideCount | AdventOfCode/Day22/Day22.cs:109 | once every piece is cut along the cutter's planes, the filter drops exactly the cutter's points |
| Day22.SplitTarget | AdventOfCode/Day22/Day22.cs:98-110 | the pieces are valid, lie inside the target, miss the cutter and hold each point of the target outside the cutter exactly once |
| Day22.KeptPieces | AdventOfCode/Day22/Day22.cs:109 | filtering aligned pieces of the target keeps exactly its points outside the cutter, once each |
| Day22.StageStep | AdventOfCode/Day22/Day22.cs:100-107 | each of the six cuts leaves every piece on one side of one more of the cutter's planes |
| Day22.StageAligned | AdventOfCode/Day22/Day22.cs:100-107 | after all six cuts every piece is aligned with the cutter |
| Day22.Cuts | AdventOfCode/Day22/Day22.cs:100-107 | the cuts keep how many cubes hold each point |
| Day22.CutsAligned | AdventOfCode/Day22/Day22.cs:100-107 | after the six cuts every piece is aligned with the cutter and lies inside the target |
| Day22.SideShrinks | AdventOfCode/Day22/Day22.cs:100-107 | a piece of a cube on one side of a plane is on that side too |
| Day22.GetHalvesSplit | AdventOfCode/Day22/Day22.cs:443-451 | the two halves as written start at the range's ends, meet without a gap, share no value, and hold the range's values when it is valid |
| Day22.HalfOfEmptyRangeIsNot | AdventOfCode/Day22/Day22.cs:443-446 | the first half as written of the empty range 1..0 holds 1 |
| Day22.HalvesSplit | AdventOfCode/Day22/Day22.cs:443-451 | the corrected halves share no value and together hold exactly the range's values, empty or not |
| Day22.HalvesAgreeOnValid | AdventOfCode/Day22/Day22.cs:443-451 | on a valid range the corrected halves are the halves as written |
| Day22.OctantsPartition | AdventOfCode/Day22/Day22.cs:420-437 | every octant lies within the bounds, and every point of the bounds lies in exactly one octant |
| Day22Tree.UnderHas | AdventOfCode/Day22/Day22.cs:526 | every child's nodes are among the nodes below its parent |
| Day22Tree.UnderMember | AdventOfCode/Day22/Day22.cs:526 | every node below a parent is in one child's subtree |
| Day22Tree.UnderPrefix | AdventOfCode/Day22/Day22.cs:526 | the nodes below the first i+1 children are those below the first i plus the next child's |
| Day22Tree.Node.constructor | AdventOfCode/Day22/Day22.cs:412-416 | a new node has the given bounds and children and holds no cubes |
| Day22Tree.Node.SubTree | AdventOfCode/Day22/Day22.cs:520-528 | every node of a tree is a tree within it, nested and split when the whole is |
| Day22Tree.Node.ChildIsNode | AdventOfCode/Day22/Day22.cs:526 | a child of a node of the tree is a node of the tree |
| Day22Tree.Node.Apart | AdventOfCode/Day22/Day22.cs:526 | no two children share a node and no node is its own descendant |
| Day22Tree.Node.AddRecursive | AdventOfCode/Day22/Day22.cs:458-473 | every node of the subtree whose bounds meet the cube gains it and no other node changes |
| Day22Tree.Node.ChildrenAreNodes | AdventOfCode/Day22/Day22.cs:526 | a node's children and their subtrees are part of its tree |
| Day22Tree.Node.Absent | AdventOfCode/Day22/Day22.cs:480-491 | a cube missing from a node of an index is missing from the whole subtree |
| Day22Tree.Node.RemoveRecursive | AdventOfCode/Day22/Day22.cs:480-491 | in an index, the pruned descent removes the cube from every node of the subtree |
| Day22Tree.Node.FindLeaves | AdventOfCode/Day22/Day22.cs:502-518 | the descent appends the leaves that meet the target, in order |
| Day22Tree.Node.LeavesMeetingAre | AdventOfCode/Day22/Day22.cs:502-518 | in a nested tree the leaves found are exactly the leaves whose bounds meet the target |
| Day22Tree.Node.LeavesFromHas | AdventOfCode/Day22/Day22.cs:512-515 | the search over the children from i on finds every leaf each of them finds |
| Day22Tree.Node.LeavesFromMember | AdventOfCode/Day22/Day22.cs:512-515 | every leaf the search over the children finds is found by one of them |
| Day22Tree.Node.LeafAt | AdventOfCode/Day22/Day22.cs:418-437 | in a split tree every point of the bounds lies in some leaf |
| Day22Tree.CreateSubtree | AdventOfCode/Day22/Day22.cs:408-441 | the new subtree over the bounds is a fresh, empty tree whose nodes above the last level have the eight octants as children |
| Day22Tree.BuiltAppend | AdventOfCode/Day22/Day22.cs:420-437 | appending the next octant's subtree keeps the children built and apart |
| Day22Tree.CreateChildren | AdventOfCode/Day22/Day22.cs:420-437 | the three loops build eight fresh, empty subtrees over the eight octants |
| Day22Reactor.QuadTree.constructor | AdventOfCode/Day22/Day22.cs:394-406 | a tree over an empty index holds no cubes |
| Day22Reactor.QuadTree.New | AdventOfCode/Day22/Day22.cs:398-406 | a depth of 0 or less throws; otherwise the tree is a fresh, empty index over the bounds |
| Day22Reactor.QuadTree.Add | AdventOfCode/Day22/Day22.cs:453-456 | adding a cube within the bounds puts it in every node it meets and keeps the index |
| Day22Reactor.QuadTree.AddAll | AdventOfCode/Day22/Day22.cs:49-52 | adding each piece in turn adds them all |
| Day22Reactor.QuadTree.Remove | AdventOfCode/Day22/Day22.cs:475-478 | removing a cube takes it out of every node and keeps the index |
| Day22Reactor.QuadTree.FindIntersectingLeafNodes | AdventOfCode/Day22/Day22.cs:493-500 | the leaves found are exactly the leaves whose bounds meet the target |
| Day22Reactor.QuadTree.AddThenRemove | AdventOfCode/Day22/Day22.cs:453-491 | adding a cube the tree lacks and removing it again leaves every node as it was |
| Day22Reactor.MeetsValid | AdventOfCode/Day22/Day22.cs:460 | cubes that meet are both valid |
| Day22Reactor.InsideMeets | AdventOfCode/Day22/Day22.cs:61 | a valid cube inside the bounds meets the root, so the root holds every cube of the index |
| Day22Reactor.IndexedClosed | AdventOfCode/Day22/Day22.cs:480-491 | in an index every cube a node lacks is lacking in its subtree, which the pruned removal relies on |
| Day22Reactor.CubesOf | AdventOfCode/Day22/Day22.cs:42 | the cubes gathered are exactly those some listed node holds |
| Day22Reactor.Touching | AdventOfCode/Day22/Day22.cs:41-42 | every cube of the index that meets the flip's cube is held by a leaf found for it |
| Day22Reactor.CountFind | AdventOfCode/Day22/Day22.cs:61 | a point counted is in one of the cubes |
| Day22Reactor.Trade | AdventOfCode/Day22/Day22.cs:47-52 | replacing a touching cube with its pieces outside the flip keeps the cubes separate and keeps every point outside the flip lit or unlit as before |
| Day22Reactor.TradeSeparate | AdventOfCode/Day22/Day22.cs:47-52 | the pieces meet no other cube and no other piece |
| Day22Reactor.SeparateUnion | AdventOfCode/Day22/Day22.cs:47-57 | two separate sets with no point in common form a separate set |
| Day22Reactor.TradeCovered | AdventOfCode/Day22/Day22.cs:47-52 | the pieces cover the touching cube's points outside the flip |
| Day22Reactor.Carve | AdventOfCode/Day22/Day22.cs:44-53 | replacing one touching cube by its pieces keeps the index good, changes no point outside the flip, and leaves no new cube meeting it |
| Day22Reactor.ApplyFlip | AdventOfCode/Day22/Day22.cs:37-59 | after a flip the points of its cube are lit exactly when it is on, and every other point is as before |
| Day22Reactor.Process | AdventOfCode/Day22/Day22.cs:31-64 | the total volume is the number of points the flips leave on: the cubes summed hold each such point once and no other point |
| Day22.GetFirstHalf | AdventOfCode/Day22/Day22.cs:443-446 | the first half as written, from Min to Min + (Max - Min) / 2 with C#'s truncating division; GetHalvesSplit and HalfOfEmptyRangeIsNot state what it gives |
| Day22.GetSecondHalf | AdventOfCode/Day22/Day22.cs:448-451 | the second half as written, from Min + (Max - Min) / 2 + 1 to Max; GetHalvesSplit states that it follows the first half without a gap |
| Day22.FirstHalf | AdventOfCode/Day22/Day22.cs:443-446 | the corrected first half, with floor division; HalvesSplit and HalvesAgreeOnValid state its properties |
| Day22.SecondHalf | AdventOfCode/Day22/Day22.cs:448-451 | the corrected second half, with floor division; HalvesSplit states that the two halves split the range |
| Day22.Octant | AdventOfCode/Day22/Day22.cs:424-432 | octant o of a box takes the first or second half of each axis by the bits of o; OctantsPartition states that the eight octants partition the box |
| Day23.HomeColumn | AdventOfCode/Day23/Day23.cs:19-27 | each amphipod letter has a home column, and the column-to-letter table maps it back to the letter |
| Day23.HomeLetter | AdventOfCode/Day23/Day23.cs:26-27 | each home column belongs to one of the letters A to D |
| Day23.Weight | AdventOfCode/Day23/Day23.cs:29-35 | every amphipod's step costs at least 1 |
| Day23.WellFormedCells | AdventOfCode/Day23/Day23.cs:674-687 | a board of the burrow has exactly the hallway cells and the room cells as keys |
| Day23.CellsExact | AdventOfCode/Day23/Day23.cs:755-781 | the cells the hash reads are cells of the burrow, all of them, each once |
| Day23.CellsValid | AdventOfCode/Day23/Day23.cs:755-781 | every cell the hash reads is a cell of the burrow |
| Day23.HashOf | AdventOfCode/Day23/Day23.cs:755-781 | the hash has one character per hallway cell and per room cell, 11 + 4 × RoomSize in all |
| Day23.ReadCells | AdventOfCode/Day23/Day23.cs:761-776 | reading a list of cells gives one character per cell |
| Day23.ReadCellsStep | AdventOfCode/Day23/Day23.cs:765 | reading one more cell appends its value |
| Day23.HallCellAt | AdventOfCode/Day23/Day23.cs:763-766 | the hash's x-th character is hallway cell x |
| Day23.RoomCellAt | AdventOfCode/Day23/Day23.cs:768-774 | after the hallway, room row y comes in the column order 3, 5, 7, 9 |
| Day23.KeyPrefixWhole | AdventOfCode/Day23/Day23.cs:755-781 | the prefix read up to the last cell is the whole hash |
| Day23.ReadHallway | AdventOfCode/Day23/Day23.cs:763-766 | the first loop appends the eleven hallway cells |
| Day23.AppendRoomRow | AdventOfCode/Day23/Day23.cs:770-773 | the inner loop appends one room row in column order |
| Day23.HallRead | AdventOfCode/Day23/Day23.cs:765 | each hallway step appends the next hallway cell |
| Day23.RoomRead | AdventOfCode/Day23/Day23.cs:772 | each room step appends the next room cell |
| Day23.ReadCellsIndex | AdventOfCode/Day23/Day23.cs:761-776 | each character read is the value of its cell |
| Day23.HashInjective | AdventOfCode/Day23/Day23.cs:755-781 | two boards of the burrow have the same hash exactly when they are equal |
| Day23.SameCell | AdventOfCode/Day23/Day23.cs:755-781 | boards that read the same agree on every cell read |
| Day23.UndoRestores | AdventOfCode/Day23/Day23.cs:701-711 | undoing a move into an empty cell restores the board |
| Day23.MovedCells | AdventOfCode/Day23/Day23.cs:701-705 | a move into an empty cell keeps the board's cells and changes only the two cells of the move |
| Day23.MovedConserves | AdventOfCode/Day23/Day23.cs:701-705 | a move into an empty cell keeps how many cells hold each letter |
| Day23.CountTrade | AdventOfCode/Day23/Day23.cs:701-705 | a letter leaving one cell for another keeps its count |
| Day23.MovedWellFormed | AdventOfCode/Day23/Day23.cs:701-705 | a move between cells of the burrow leaves a board of the burrow |
| Day23.Map.constructor | AdventOfCode/Day23/Day23.cs:635-650 | the map holds the room size and the values read |
| Day23.Map.Moved | AdventOfCode/Day23/Day23.cs:689-699 | the new map is the old one with the move made, and the old map's values are unchanged |
| Day23.Map.MakeMove | AdventOfCode/Day23/Day23.cs:701-705 | the destination takes the source's value and the source becomes empty |
| Day23.Map.UndoMove | AdventOfCode/Day23/Day23.cs:707-711 | the source takes the destination's value back and the destination becomes empty |
| Day23.Map.Hash | AdventOfCode/Day23/Day23.cs:755-781 | the hash has 11 + 4 × RoomSize characters |
| Day23.Map.ComputeHash | AdventOfCode/Day23/Day23.cs:755-781 | the loops build the hash of the current values |
| Day23.HomeCompleteFrom | AdventOfCode/Day23/Day23.cs:374-391 | scanning up from the bottom, the room is complete unless some foreign letter sits below every cell up to the first empty one |
| Day23.HomeTopFrom | AdventOfCode/Day23/Day23.cs:394-407 | the cell found is the first occupied cell of the column from the given row down, every cell above it being empty |
| Day23.SlotFrom | AdventOfCode/Day23/Day23.cs:418-432 | scanning up from the bottom finds the lowest empty cell with only the column's own letter below it, or finds there is none |
| Day23.ColumnSnailPosition | AdventOfCode/Day23/Day23.cs:409-433 | a cell is found only when the room's top cell is free; it is empty and has only the column's own letter below it, and none is found when no such cell exists |
| Day23.SlotUnique | AdventOfCode/Day23/Day23.cs:409-433 | a room has at most one such cell |
| Day23.ClearFrom | AdventOfCode/Day23/Day23.cs:363-369 | the hallway is clear between lo and hi exactly when every cell there is empty |
| Day23.DistanceToColumn | AdventOfCode/Day23/Day23.cs:356-372 | the distance is the horizontal distance when every hallway cell strictly between is empty, and -1 otherwise |
| Day23.ScanLeft | AdventOfCode/Day23/Day23.cs:325-337 | the leftward scan lists hallway positions at or left of the start in descending order |
| Day23.ScanRight | AdventOfCode/Day23/Day23.cs:339-351 | the rightward scan lists hallway positions at or right of the start in ascending order |
| Day23.ScanLeftMembers | AdventOfCode/Day23/Day23.cs:325-337 | the leftward scan lists exactly the empty stopping cells reached before the first occupied stopping cell |
| Day23.ScanRightMembers | AdventOfCode/Day23/Day23.cs:339-351 | the rightward scan lists exactly the empty stopping cells reached before the first occupied stopping cell |
| Day23.ReachableHallwayPoints | AdventOfCode/Day23/Day23.cs:321-354 | the positions listed are exactly the empty stopping cells reachable from the column on either side, each listed once |
| Day23.DistinctHalves | AdventOfCode/Day23/Day23.cs:321-354 | the two scans share no position and neither repeats one |
| Day23.Descending | AdventOfCode/Day23/Day23.cs:325 | the leftward scan is strictly descending |
| Day23.Ascending | AdventOfCode/Day23/Day23.cs:339 | the rightward scan is strictly ascending |
| Day23.ExitMovesMembers | AdventOfCode/Day23/Day23.cs:304-314 | the moves out of a room go exactly to the reachable hallway positions, at the weight times the steps |
| Day23.FindValidMoves | AdventOfCode/Day23/Day23.cs:251-319 | the loop over the cells collects each cell's moves in order |
| Day23.AddHallwayMove | AdventOfCode/Day23/Day23.cs:265-289 | an amphipod in the hallway adds at most its one move home |
| Day23.AddRoomMoves | AdventOfCode/Day23/Day23.cs:290-315 | an amphipod in a room adds its moves out to the hallway |
| Day23.AddExitMoves | AdventOfCode/Day23/Day23.cs:304-314 | the loop adds one move per reachable hallway position |
| Day23.HallwayMovesLegal | AdventOfCode/Day23/Day23.cs:265-289 | the hallway moves of a cell are exactly the moves to the free cell of its own room, when the room may be entered and the way is clear, at the weight times the steps |
| Day23.RoomMovesLegal | AdventOfCode/Day23/Day23.cs:290-315 | the room moves of a cell are exactly the moves of the topmost amphipod of a room that may not be entered to a reachable hallway stop, at the weight times the steps |
| Day23.CellMovesLegal | AdventOfCode/Day23/Day23.cs:255-316 | a cell's moves are exactly its legal moves |
| Day23.MovesOfLegal | AdventOfCode/Day23/Day23.cs:255-316 | the moves of a list of cells are exactly the legal moves from those cells |
| Day23.ValidMovesLegal | AdventOfCode/Day23/Day23.cs:251-319 | the moves found are exactly the legal moves of the board |
| Day23.LegalMoveFacts | AdventOfCode/Day23/Day23.cs:251-319 | a legal move goes to an empty cell of the burrow, never from the hallway to the hallway, at a cost of at least 1 |
| Day23.ValidMoveConserves | AdventOfCode/Day23/Day23.cs:251-319 | every move found keeps the board a board of the burrow and keeps the number of each letter, and costs at least 1 |
| Day23.HomeTop | AdventOfCode/Day23/Day23.cs:394-407 | the topmost occupied cell of a room; HomeTopFrom states that every cell above it is empty, and RoomMovesLegal that only that cell moves out |
| Day23.Map.IsComplete | AdventOfCode/Day23/Day23.cs:783-797 | every room cell holds its column's letter; Day23Steps.Found and Exhausted state that the search stops at the cheapest such board or finds none |
| Day23Routes.RouteExtend | AdventOfCode/Day23/Day23.cs:98-102 | a route followed by one generated move is a route to the moved board, its cost raised by the move's cost |
| Day23Routes.RouteFacts | AdventOfCode/Day23/Day23.cs:98-102 | every board a route reaches is a board of the burrow, and a route costs at least one per move |
| Day23Routes.InWords | AdventOfCode/Day23/Day23.cs:755-781 | a string over an alphabet is one of the words of its length over it |
| Day23Routes.HashInWords | AdventOfCode/Day23/Day23.cs:755-781 | a board's hash is a word over the board's letters of length 11 + 4 × RoomSize, so there are finitely many keys |
| Day23Routes.MovedValuesIn | AdventOfCode/Day23/Day23.cs:701-705 | a move brings in no letter the board did not hold, besides the empty mark |
| Day23Routes.With | AdventOfCode/Day23/Day23.cs:831-840 | adding a key at a distance puts it in that distance's list, creating the list when missing, and leaves the other lists alone |
| Day23Routes.Without | AdventOfCode/Day23/Day23.cs:814-829 | removing a key from a distance's list drops the list when it held one key, and leaves the other lists alone |
| Day23Routes.SingleKey | AdventOfCode/Day23/Day23.cs:820-828 | a list holding the key has one element exactly when it is that key alone |
| Day23Routes.Discovered | AdventOfCode/Day23/Day23.cs:104-116 | a new entry is the moved board under its hash, one move's cost beyond the current entry, with the current entry as predecessor and not yet complete |
| Day23Routes.SearchStart | AdventOfCode/Day23/Day23.cs:67-78 | the root entry, the start board at distance 0 marked complete in the list of distance 0, satisfies the search invariant |
| Day23Routes.ClosedGrows | AdventOfCode/Day23/Day23.cs:100-130 | relaxed moves stay relaxed while entries are only added or brought nearer |
| Day23Routes.RelaxedGrows | AdventOfCode/Day23/Day23.cs:100-130 | a relaxed move stays relaxed while entries are only added or brought nearer |
| Day23Steps.FrontierAtLeast | AdventOfCode/Day23/Day23.cs:814-829 | every waiting entry is at least as far as the smallest waiting distance |
| Day23Steps.ChaseBound | AdventOfCode/Day23/Day23.cs:80-131 | any route from a processed entry to an unprocessed board passes a waiting entry, so it costs at least the smallest waiting distance |
| Day23Steps.PopBound | AdventOfCode/Day23/Day23.cs:80-131 | every route to a board not yet processed costs at least the smallest waiting distance |
| Day23Steps.PopStep | AdventOfCode/Day23/Day23.cs:87-94 | the key popped names an unprocessed entry at the smallest waiting distance, no route to its board is cheaper, and when it is finished no route to any finished burrow is cheaper |
| Day23Steps.PopKeeps | AdventOfCode/Day23/Day23.cs:87-88 | popping a key and marking its entry complete keeps the search invariant with that key processed |
| Day23Steps.EntriesSet | AdventOfCode/Day23/Day23.cs:104-129 | storing an entry for a board reached by a route of its distance keeps every entry backed by a route |
| Day23Steps.EntriesMark | AdventOfCode/Day23/Day23.cs:88 | marking an entry complete keeps every entry backed by a route |
| Day23Steps.LinksSet | AdventOfCode/Day23/Day23.cs:104-129 | storing an entry whose predecessor is a processed nearer entry keeps every predecessor link valid |
| Day23Steps.LinksMore | AdventOfCode/Day23/Day23.cs:87-88 | processing more entries keeps every predecessor link valid |
| Day23Steps.SettledSet | AdventOfCode/Day23/Day23.cs:104-129 | changing an unprocessed entry keeps every processed entry at its least distance |
| Day23Steps.SettledAdd | AdventOfCode/Day23/Day23.cs:87-98 | an unfinished entry no route undercuts joins the processed entries at its least distance |
| Day23Steps.RootSet | AdventOfCode/Day23/Day23.cs:104-129 | changing an entry other than the root keeps the root entry the start board at distance 0 |
| Day23Steps.RootPop | AdventOfCode/Day23/Day23.cs:87-88 | processing an entry keeps the root entry the start board at distance 0 |
| Day23Steps.PopFrontier | AdventOfCode/Day23/Day23.cs:814-829 | every key in a waiting list is an unprocessed entry at that list's distance |
| Day23Steps.AddFrontier | AdventOfCode/Day23/Day23.cs:114-115 | adding a new entry and its key to the list of its distance keeps each list the keys at its distance |
| Day23Steps.UpdateFrontier | AdventOfCode/Day23/Day23.cs:119-127 | moving a waiting entry to a new distance keeps each list the keys at its distance |
| Day23Steps.MovedFrontier | AdventOfCode/Day23/Day23.cs:842-858 | taking a key out of its old list and into the list of its new distance keeps it waiting |
| Day23Steps.TakenFrontier | AdventOfCode/Day23/Day23.cs:842-858 | once a key is taken out of its list, no list holds it and none is empty |
| Day23Steps.PutFrontier | AdventOfCode/Day23/Day23.cs:831-840 | putting the key in the list of its new distance keeps each list the keys at its distance |
| Day23Steps.RelaxStart | AdventOfCode/Day23/Day23.cs:98-100 | the moves of a newly processed entry start with none relaxed under the inner loop's invariant |
| Day23Steps.RelaxEnd | AdventOfCode/Day23/Day23.cs:100-131 | once every move of the processed entry is relaxed, the search invariant holds with that entry closed |
| Day23Steps.CloseCurrent | AdventOfCode/Day23/Day23.cs:100-131 | once every move of the current entry is relaxed, it joins the closed entries |
| Day23Steps.RelaxedPrefixGrows | AdventOfCode/Day23/Day23.cs:100-130 | relaxing one more move keeps the earlier moves relaxed |
| Day23Steps.AddStep | AdventOfCode/Day23/Day23.cs:104-116 | adding a board not yet seen stores its entry, puts its key in the list of its distance, extends its route by the move, and keeps the inner invariant one move further |
| Day23Steps.RelaxingFrom | AdventOfCode/Day23/Day23.cs:100-131 | the parts of the invariant hold together as the inner loop's invariant |
| Day23Steps.StepFacts | AdventOfCode/Day23/Day23.cs:102 | the moved board is a board of the burrow, reached by a route one move longer |
| Day23Steps.MoveFacts | AdventOfCode/Day23/Day23.cs:102 | the moved board holds only the start's letters and its hash is its key |
| Day23Steps.ReplaceKeeps | AdventOfCode/Day23/Day23.cs:119-127 | replacing an unprocessed entry by a nearer one through the current entry keeps the invariant |
| Day23Steps.ReplaceLinks | AdventOfCode/Day23/Day23.cs:125 | pointing a nearer entry back at the current entry keeps every predecessor link valid |
| Day23Steps.ReplaceClosed | AdventOfCode/Day23/Day23.cs:119-127 | bringing an unprocessed entry nearer keeps the closed entries' moves relaxed |
| Day23Steps.UpdateStep | AdventOfCode/Day23/Day23.cs:119-127 | a cheaper way to a waiting board moves its key to the list of the new distance, gives it a nearer entry with the current predecessor, and keeps the inner invariant one move further |
| Day23Steps.SkipStep | AdventOfCode/Day23/Day23.cs:119-128 | a move to a processed board or one no cheaper than its entry changes nothing and keeps the inner invariant one move further |
| Day23Steps.SettledBound | AdventOfCode/Day23/Day23.cs:120 | a processed entry's distance is at most the cost of any route to its board |
| Day23Steps.ChaseClosed | AdventOfCode/Day23/Day23.cs:82-85 | when no key waits, every board any route reaches is a processed entry |
| Day23Steps.Exhausted | AdventOfCode/Day23/Day23.cs:82-85 | when no key waits, no route from the start reaches a finished burrow |
| Day23Steps.KeysBounded | AdventOfCode/Day23/Day23.cs:104-116 | every key stored is a word over the start's letters of length 11 + 4 × RoomSize, so the loop ends |
| Day23Steps.Found | AdventOfCode/Day23/Day23.cs:90-94 | a finished burrow popped first holds the least cost of any route to a finished burrow, reached by a route of that cost, and its chain of predecessors stays valid |
| Day23Steps.SearchChained | AdventOfCode/Day23/Day23.cs:104-129 | under the search invariant every predecessor is strictly nearer, and no distance is negative |
| Day23Steps.MarkedChained | AdventOfCode/Day23/Day23.cs:88 | marking an entry complete keeps the predecessors strictly nearer |
| Day23Steps.SearchLinked | AdventOfCode/Day23/Day23.cs:104-129 | under the search invariant only the root lacks a predecessor, and every predecessor has an entry |
| Day23Steps.MarkedLinked | AdventOfCode/Day23/Day23.cs:88 | marking an entry complete keeps every predecessor an entry |
| Day23Search.ShortestPathContext.constructor | AdventOfCode/Day23/Day23.cs:806-812 | a new context has no lists, no entries and no final key |
| Day23Search.ShortestPathContext.PopFirst | AdventOfCode/Day23/Day23.cs:814-829 | a key is popped from the list of the smallest distance, and the list goes when it empties; nothing is popped when there is no list |
| Day23Search.ShortestPathContext.AddByDistance | AdventOfCode/Day23/Day23.cs:831-840 | the entry's key joins the list of its distance, which is created when missing |
| Day23Search.ShortestPathContext.UpdateByDistance | AdventOfCode/Day23/Day23.cs:842-858 | the key leaves the list of its old distance and joins that of the new one, and its entry takes the new distance; a missing old list and a key missing from a longer list are the errors the source throws |
| Day23Search.BuildShortestPathContext | AdventOfCode/Day23/Day23.cs:65-134 | when it succeeds the final entry is a finished burrow reached at the least cost of any route to a finished burrow, from a route of that cost, and its chain of predecessors leads back to the start; when it fails, no route from the start reaches a finished burrow |
| Day23Search.PopNext | AdventOfCode/Day23/Day23.cs:87-94 | the entry popped was not yet processed; a finished one holds the least cost, and an unfinished one is processed at its least distance |
| Day23Search.RelaxMove | AdventOfCode/Day23/Day23.cs:102-129 | handling one move keeps the inner invariant one move further |
| Day23Search.AddEntry | AdventOfCode/Day23/Day23.cs:104-116 | a board not yet seen gets its entry and its key in a list, keeping the inner invariant one move further |
| Day23Search.ImproveEntry | AdventOfCode/Day23/Day23.cs:119-127 | a cheaper way to a waiting board moves it to the new distance with the current predecessor, keeping the inner invariant one move further |
| Day23Search.Overwrite | AdventOfCode/Day23/Day23.cs:125-126 | writing an entry twice under one key leaves only the second |
| Day23Search.ChainFrom | AdventOfCode/Day23/Day23.cs:136-149 | the chain from a key starts with that key's entry, and fails with the lookup error when a key has no entry |
| Day23Search.GetMoveSet | AdventOfCode/Day23/Day23.cs:136-149 | the loop collects the chain of predecessor keys from the final key, and nothing when there is none |
| Day23Search.JoinedStep | AdventOfCode/Day23/Day23.cs:143-145 | appending one key and then the rest of the chain is appending that key to the collected keys |
| Day23Search.ChainToRoot | AdventOfCode/Day23/Day23.cs:136-149 | from any entry the chain succeeds, starts with it, ends at the start key, and each key's predecessor follows it |
| Day24.State.Set | AdventOfCode/Day24/Day24.cs:754-760 | writing a register changes that register to the value and leaves the other three as they were |
| Day24.NewState | AdventOfCode/Day24/Day24.cs:746-752 | every register of a new state is 0 |
| Day24.GetSecondValue | AdventOfCode/Day24/Day24.cs:598-606 | the second operand is the named register's value when there is one, and the constant otherwise |
| Day24.Apply | AdventOfCode/Day24/Day24.cs:609-702 | an instruction fails exactly when it reads with nothing left to read or divides or takes a remainder by zero; otherwise only its first register changes and only an input consumes a value |
| Day24.InputReads | AdventOfCode/Day24/Day24.cs:616-621 | an input writes the next value to be read into its register and consumes it |
| Day24.Arithmetic | AdventOfCode/Day24/Day24.cs:631-651 | add, multiply and equal always succeed and write the sum, the product, or 1 for equal operands and 0 otherwise |
| Day24.DivideTruncates | AdventOfCode/Day24/Day24.cs:662-667 | divide truncates toward zero: the quotient holds as many whole divisors as fit in the dividend's size, and is negative only when the signs differ |
| Day24.ModKeepsSign | AdventOfCode/Day24/Day24.cs:677-682 | the remainder is smaller than the divisor in size, has the dividend's sign, and completes the truncated quotient to the dividend |
| Day24.RunConcat | AdventOfCode/Day24/Day24.cs:415-425 | running two instruction lists in turn is running the second from where the first left off, and a failure in the first ends the run |
| Day24.InputReaderQueue.constructor | AdventOfCode/Day24/Day24.cs:467-473 | a new queue holds no values |
| Day24.InputReaderQueue.PushValue | AdventOfCode/Day24/Day24.cs:475-478 | the value joins the back of the queue |
| Day24.InputReaderQueue.GetValue | AdventOfCode/Day24/Day24.cs:480-488 | the front value is taken from the queue, and reading an empty queue is the source's error and changes nothing |
| Day24.InputReader.constructor | AdventOfCode/Day24/Day24.cs:446-454 | the reader holds the values in order, from the first |
| Day24.InputReader.GetValue | AdventOfCode/Day24/Day24.cs:456-464 | the value at the index is returned and the index moves on; reading beyond the end is the source's error and moves nothing |
| Day24.ApplyIgnoresInput | AdventOfCode/Day24/Day24.cs:624-702 | an instruction other than input succeeds and computes the same state whatever is left to read |
| Day24.Execute | AdventOfCode/Day24/Day24.cs:609-702 | executing an instruction on the queue does what Apply does to the state and to the values left in the queue, and a failure leaves the queue as it was |
| Day24.ExecuteInstructions | AdventOfCode/Day24/Day24.cs:415-425 | the loop gives the state, the failure and the queue that running the whole list gives |
| Day24.AnalyzeChunk | AdventOfCode/Day24/Day24.cs:168-181 | the analysis takes M, R and P from the constants of the chunk's instructions 4, 5 and 15, and a chunk too short to hold them fails |
| Day24.ShapedAppend | AdventOfCode/Day24/Day24.cs:194-210 | appending an analysed chunk that begins with an input and holds no other keeps the chunks well formed and their instructions the concatenation |
| Day24.Close | AdventOfCode/Day24/Day24.cs:205-210 | closing the open block at i appends it as a chunk whose instructions complete the program up to i |
| Day24.Extend | AdventOfCode/Day24/Day24.cs:202 | an instruction other than input extends the open block |
| Day24.Reopen | AdventOfCode/Day24/Day24.cs:192-202 | an input closes the open block and starts a new one with that input |
| Day24.ChunkInstructions | AdventOfCode/Day24/Day24.cs:183-213 | on success the chunks' instructions, concatenated, are the program, each chunk starting at an input and holding no other, each with its analysis; it fails only on an empty program or a block shorter than 16 instructions |
| Day24.ChunksRun | AdventOfCode/Day24/Day24.cs:139-151 | running the chunks one after another is running the whole program |
| Day24.ExecuteChunkFast | AdventOfCode/Day24/Day24.cs:385-399 | the shortcut changes only z |
| Day24.TruncDivOne | AdventOfCode/Day24/Day24.cs:389-392 | dividing by 1 changes nothing, so skipping the division when M is 1 is sound |
| Day24.RunCons | AdventOfCode/Day24/Day24.cs:419-422 | a list run after one instruction continues from that instruction's state |
| Day24.RunOne | AdventOfCode/Day24/Day24.cs:419-422 | a one-instruction list runs as that instruction |
| Day24.DecideRuns | AdventOfCode/Day24/Day24.cs:388-392 | the chunk's first eight instructions read w, divide z by M, and leave x as 1 exactly when w differs from the old z's remainder by 26 plus R |
| Day24.ScaleRuns | AdventOfCode/Day24/Day24.cs:393-396 | the next five multiply z by 26 when x is 1 and by 1 when it is 0 |
| Day24.GrowRuns | AdventOfCode/Day24/Day24.cs:393-396 | the last five add w plus P to z when x is 1 and nothing when it is 0 |
| Day24.StandardRuns | AdventOfCode/Day24/Day24.cs:385-399 | a chunk of the standard shape leaves w, x, y and z as stated in closed form from the old z and the digit |
| Day24.AnalyzeStandard | AdventOfCode/Day24/Day24.cs:168-181 | the analysis of a standard chunk reads back its M, R and P |
| Day24.FastAgrees | AdventOfCode/Day24/Day24.cs:366 | on a chunk of the standard shape with M at least 1, the shortcut leaves the same z as running the chunk's instructions on the digit, which run without failing and consume only the digit |
| Day24.ListToLong | AdventOfCode/Day24/Day24.cs:401-413 | the loop from the last digit with a growing power of ten gives the number the digits spell in decimal |
| Day24.DigitsAppend | AdventOfCode/Day24/Day24.cs:401-413 | one more digit on the right is ten times the number plus that digit |
| Day24.DigitsBound | AdventOfCode/Day24/Day24.cs:401-413 | n decimal digits spell a number from 0 up to but not including 10^n |
| Day24.Run | AdventOfCode/Day24/Day24.cs:415-425 | running instructions in order, the first failure ending the run; Day24.RunConcat, ExecuteInstructions and ChunksRun state how runs compose and that the C# loop computes it |
| Day25.Adjacent | AdventOfCode/Day25/Day25.cs:135-153 | the cell ahead of a cucumber is the next one east (same row) or south (same column), wrapping at the edge, and stays in the grid |
| Day25.Behind | AdventOfCode/Day25/Day25.cs:135-153 | the cell behind a cell of the grid, wrapping at the edge, stays in the grid |
| Day25.AdjacentBehind | AdventOfCode/Day25/Day25.cs:135-153 | within the grid, the cell ahead and the cell behind undo each other, so each cell has exactly one cell that moves into it |
| Day25.SameGrid | AdventOfCode/Day25/Day25.cs:125 | grids of the same size that agree at every cell are equal |
| Day25.HoldingIs | AdventOfCode/Day25/Day25.cs:127-128 | the cells holding a marker are exactly the grid cells with that value |
| Day25.MoversAre | AdventOfCode/Day25/Day25.cs:56-65 | the movers of a herd are exactly its cucumbers whose cell ahead is empty |
| Day25.Shift | AdventOfCode/Day25/Day25.cs:54-94 | moving a herd keeps the grid's size |
| Day25.MovedColumns | AdventOfCode/Day25/Day25.cs:67-70 | the moved grid has one column per column and one cell per row |
| Day25.MovedColumnsIndex | AdventOfCode/Day25/Day25.cs:67-70 | each cell of the moved grid holds its moved value |
| Day25.ShiftSpec | AdventOfCode/Day25/Day25.cs:54-94 | after a herd moves, a mover's old cell is empty, the cell ahead of a mover holds that herd's marker, and every other cell is unchanged |
| Day25.MoveStep | AdventOfCode/Day25/Day25.cs:67-70 | while the movers chosen beforehand move one at a time, each still stands in its cell and the cell ahead is still empty, because each cell has one cell behind it |
| Day25.TargetsCount | AdventOfCode/Day25/Day25.cs:67-70 | the movers reach as many cells as there are movers |
| Day25.MovingHerd | AdventOfCode/Day25/Day25.cs:67-70 | after a herd moves, its cells are its old cells without the movers, plus the cells ahead of the movers |
| Day25.TargetsEmpty | AdventOfCode/Day25/Day25.cs:61 | every cell a mover reaches was empty |
| Day25.OtherHerd | AdventOfCode/Day25/Day25.cs:54-94 | moving one herd leaves the cells of every other marker alone |
| Day25.ShiftKeepsHerds | AdventOfCode/Day25/Day25.cs:54-94 | moving a herd keeps the number of cucumbers in each herd |
| Day25.Step | AdventOfCode/Day25/Day25.cs:46-52 | a step keeps the grid's size |
| Day25.StepKeepsHerds | AdventOfCode/Day25/Day25.cs:46-52 | a step, the east herd and then the south herd, keeps the number of cucumbers in each herd |
| Day25.Steps | AdventOfCode/Day25/Day25.cs:26-44 | n steps keep the grid's size |
| Day25.FirstStillSpec | AdventOfCode/Day25/Day25.cs:26-44 | the step found is the first that moves nothing, every earlier step moving something, and none is found only when each of the steps allowed moves something |
| Day25.FirstStillStays | AdventOfCode/Day25/Day25.cs:30-41 | once found, the first step that moves nothing stays the same when more steps are allowed |
| Day25.StillStep | AdventOfCode/Day25/Day25.cs:30-43 | after k steps that all moved, step k + 1 is a step from the current grid, and it is the answer when it moves nothing |
| Day25.TracksHolding | AdventOfCode/Day25/Day25.cs:127-128 | the two herd sets are exactly the cells holding '>' and 'v' |
| Day25.HerdMover | AdventOfCode/Day25/Day25.cs:58-65 | a member of a herd set is in the grid, and it moves exactly when the cell ahead is empty |
| Day25.MoversInHerd | AdventOfCode/Day25/Day25.cs:58-65 | every mover of a herd is in that herd's set |
| Day25.MoveHerd | AdventOfCode/Day25/Day25.cs:182-191 | moving one cucumber into an empty cell moves the cell in that marker's set when it holds that marker, and leaves the set alone otherwise |
| Day25.MoveTracks | AdventOfCode/Day25/Day25.cs:168-195 | moving one cucumber into an empty cell keeps both herd sets exact |
| Day25.DistinctAppend | AdventOfCode/Day25/Day25.cs:63 | appending a new cell keeps the list of movers free of repeats |
| Day25.PrefixHas | AdventOfCode/Day25/Day25.cs:67-70 | the first i movers are exactly the cells at the first i places of the list |
| Day25.PrefixFresh | AdventOfCode/Day25/Day25.cs:67-70 | a mover is not among the movers before it |
| Day25.PrefixAll | AdventOfCode/Day25/Day25.cs:67-70 | the whole list's prefix is its set of cells |
| Day25.PrefixCount | AdventOfCode/Day25/Day25.cs:72 | the first i movers are i distinct cells |
| Day25.PartShiftStart | AdventOfCode/Day25/Day25.cs:67 | before any mover has moved, the grid is the old one |
| Day25.PartShiftReady | AdventOfCode/Day25/Day25.cs:69 | a mover not yet moved still stands in its cell, and the cell ahead is still empty |
| Day25.PartShiftStep | AdventOfCode/Day25/Day25.cs:67-70 | moving one more mover keeps the grid the old one with the movers so far moved |
| Day25.PartShiftDone | AdventOfCode/Day25/Day25.cs:67-72 | once every mover has moved, the grid is the old one with the herd moved |
| Day25Map.Map.constructor | AdventOfCode/Day25/Day25.cs:130-133 | a new map has the given size, each cell holding the default char, and empty herd sets |
| Day25Map.Map.SetValue | AdventOfCode/Day25/Day25.cs:200-203 | the cell takes the value and no other cell changes |
| Day25Map.Map.Move | AdventOfCode/Day25/Day25.cs:168-195 | moving from an empty cell or into a filled one is the source's error and changes nothing; otherwise the value moves, the source cell is emptied, and the herd set of the moved marker follows it, keeping both sets exact |
| Day25Map.Map.Relocate | AdventOfCode/Day25/Day25.cs:182-194 | the value moves into the empty cell, the herd set of its marker follows it, and both herds keep their sizes |
| Day25Map.Map.Advance | AdventOfCode/Day25/Day25.cs:54-94 | NextEast and NextSouth leave the grid with the herd moved as all moving at once, return the number of movers, and keep both herds' sizes |
| Day25Map.Map.PickMovers | AdventOfCode/Day25/Day25.cs:56-65 | the list collected is the herd's movers, each once |
| Day25Map.Map.MoveEach | AdventOfCode/Day25/Day25.cs:67-70 | moving the collected cucumbers one at a time gives the grid with the herd moved as all at once |
| Day25Map.Map.MoveOne | AdventOfCode/Day25/Day25.cs:69 | moving one more collected cucumber keeps the grid the old one with the movers so far moved |
| Day25Map.Map.NextStep | AdventOfCode/Day25/Day25.cs:46-52 | a step moves the east herd and then the south herd, returns the number of moves, and keeps both herds' sizes |
| Day25Map.Map.StepsToEquilibrium | AdventOfCode/Day25/Day25.cs:26-44 | the result is the 1-based number of the first step that moves nothing, with the grid as after it, and None when every step within the fuel moves something |
| Day25Map.Map.Value | AdventOfCode/Day25/Day25.cs:125 | the grid the Spots array holds: the same size, and each cell holds the array entry at that place |
| Common.TruncRem | AdventOfCode/Day24/Day24.cs:680 | C#'s remainder is smaller than the divisor in size and has the dividend's sign |
| Common.TruncDivBounds | AdventOfCode/Day24/Day24.cs:665 | C#'s quotient has the size of the Euclidean quotient of the sizes: as many whole divisors as fit in the dividend |
| Common.TruncDivRem | AdventOfCode/Day24/Day24.cs:665-680 | the truncated quotient times the divisor plus the remainder gives back the dividend |
| Common.TruncAgreesOnNonNegative | AdventOfCode/Day24/Day24.cs:665-680 | on a non-negative dividend and positive divisor, C#'s division and remainder agree with the Euclidean ones |
| Common.ReversedIndex | AdventOfCode/Day15/Day15.cs:153 | reversing keeps the length and puts element i at place n - 1 - i |
| Common.SetMin | AdventOfCode/Day23/Day23.cs:814-829 | the least key is a key, and no key is smaller |
| Common.BinaryValueCons | AdventOfCode/Day3/Day3.cs:32-47 | a leading '1' adds 2 to the power of the number of digits after it, and a leading '0' adds nothing |
| Common.BinaryValueBound | AdventOfCode/Day3/Day3.cs:32-47 | n binary digits give a value below 2^n |
| Common.DigitChar | AdventOfCode/DayTwo/DayTwo.cs:104 | each value below 10 has a digit whose value it is |
| Common.NatToString | AdventOfCode/Day18/Day18.cs:347-358 | a number prints as canonical decimal text, with no leading zero, that reads back as the number |
| Common.LeadingDigitPositive | AdventOfCode/Day18/Day18.cs:347-358 | canonical text of two or more digits is worth at least 10 |
| Common.CanonicalRoundTrip | AdventOfCode/Day18/Day18.cs:108-119 | reading canonical decimal text and printing the value gives the text back |
| Common.ParseInt | AdventOfCode/DayTwo/DayTwo.cs:104 | int.Parse with its default style: the text is trimmed of white space (space and U+0009 to U+000D) and read as an optional sign and ASCII digits, giving a value in the 32-bit range |
| Common.ParseIntToString | AdventOfCode/DayTwo/DayTwo.cs:104 | printing any 32-bit integer gives text that int.Parse reads back as it |
| Common.TrimStart | AdventOfCode/DayTwo/DayTwo.cs:104 | the text without its leading white space; TrimStartMeaning states what it returns |
| Common.TrimStartMeaning | AdventOfCode/DayTwo/DayTwo.cs:104 | TrimStart returns a suffix of the text that is empty or starts with a character that is not white space, and everything it drops is white space |
| Common.TrimEnd | AdventOfCode/DayTwo/DayTwo.cs:104 | the text without its trailing white space; TrimEndMeaning states what it returns |
| Common.TrimEndMeaning | AdventOfCode/DayTwo/DayTwo.cs:104 | TrimEnd returns a prefix of the text that is empty or ends with a character that is not white space, and everything it drops is white space |
| Common.TrimStartWhite | AdventOfCode/DayTwo/DayTwo.cs:104 | leading white space makes no difference to TrimStart |
| Common.TrimEndWhite | AdventOfCode/DayTwo/DayTwo.cs:104 | trailing white space makes no difference to TrimEnd |
| Common.TrimLeadingWhite | AdventOfCode/DayTwo/DayTwo.cs:104 | leading white space makes no difference to trimming both ends |
| Common.TrimWhite | AdventOfCode/DayTwo/DayTwo.cs:104 | white space on either side makes no difference to trimming both ends |
| Common.TrimNone | AdventOfCode/DayTwo/DayTwo.cs:104 | text that neither starts nor ends with white space is its own trim |
| Common.ParseTrimmed | AdventOfCode/DayTwo/DayTwo.cs:104 | reading an optional sign and ASCII digits gives a value in the 32-bit range, failing on no digits, another character or overflow |
| Common.ParseIntIgnoresWhite | AdventOfCode/DayTwo/DayTwo.cs:104 | white space before and after the text does not change what int.Parse reads, so "5\t" reads as 5 |
| Common.ParseDigits | AdventOfCode/Day18/Day18.cs:108-119 | a run of ASCII digits is read as its value, or fails with OverflowException past int.MaxValue |
| Counting.AddCount | AdventOfCode/Day6/Day6.cs:71-79 | adding to a key creates it when missing and raises its count by the value |
| Counting.LookupAddCount | AdventOfCode/Day6/Day6.cs:71-79 | adding to a key raises that key's count by the value and no other key's count |
| Counting.TallyEquality | AdventOfCode/Day6/Day6.cs:71-79 | two tallies with the same keys and the same counts are equal |
| Counting.AddCountCommute | AdventOfCode/Day6/Day6.cs:52-66 | additions to a tally may be made in either order, so the dictionary's iteration order does not matter |
| Counting.MapSumRemove | AdventOfCode/Day6/Day6.cs:52-66 | the total of a tally is one key's count plus the total of the rest |
| Counting.MapSumAddCount | AdventOfCode/Day6/Day6.cs:71-79 | adding a value to a key raises the tally's total by that value |
| Counting.HistogramCounts | AdventOfCode/Day6/Day6.cs:36-46 | a histogram counts each timer as many times as it occurs, has exactly the timers as keys, and its total is the number of fish |
| Counting.RestrictAdd | AdventOfCode/Day6/Day6.cs:52-66 | the part of a tally seen so far grows by one key's count per key visited |
| Counting.RestrictAll | AdventOfCode/Day6/Day6.cs:52-66 | once every key is visited, the part seen is the whole tally |

## Left out

Throughout:
- Input and output are not modelled: `ReadAndParse`, `Process`, `Print`, `Console` output, file reads and timing with `DateTime`. Each day's model starts from the parsed records the C# builds.
- C# `int` and `long` overflow is not modelled. Integers are unbounded. The puzzle answers stay far inside 64 bits, and only the `int.MaxValue` sentinels of Day7 and Day15 are kept as the constant 2147483647.
- The iteration order of a `HashSet` or `Dictionary` is not fixed by C#. Where the code's result depends on it, the model picks with `:|` or takes the order as a parameter, and its contracts hold for every order.
- Char.IsUpper and char.IsDigit are modelled as ASCII tests. `Day12.IsUpper` is 'A'..'Z' (`AdventOfCode/Day12/Day12.cs:169`). `Common.IsDigit` is '0'..'9' (`AdventOfCode/Day18/Day18.cs:77`, `:112`). The other Unicode upper-case letters and decimal digits are not.
- Floating point is not modelled: Day19's rotations (`Math.Cos`, `Math.Sin`, `Math.Round`) and Day24's `Math.Pow` in `PowerCache`.

Loops with no bound:
- Day18Search.ReduceFor: the C# loop at `AdventOfCode/Day18/Day18.cs:137-143` runs until the tree is reduced. The model takes a `fuel` bound and gives `None` when the bound runs out. That no fuel would ever run out is not proved.
- Day18Search.Reduce: has the same fuel bound as ReduceFor.
- Day18Search.Add: the same fuel bound.
- Day18Search.AddAll: the same fuel bound.
- Day18Search.FindLargestMagnitude: the same fuel bound. FindLargestMagnitudeEitherOrder has it too.
- Day25Map.Map.StepsToEquilibrium: the C# loop at `AdventOfCode/Day25/Day25.cs:30-41` runs until a step moves nothing. The model gives `None` after `fuel` steps that all moved. That some step moves nothing is not proved.

Requirements the C# does not check:
- Day12.FindRoutes: requires SearchGraph, which rules out an edge between two big caves and an empty cave name.
  - On two adjacent big caves the C# recursion at `AdventOfCode/Day12/Day12.cs:113-116` never ends (see Findings).
  - On an empty name, `label[0]` at `AdventOfCode/Day12/Day12.cs:169` throws.
- Day20.GetNextImage: requires an algorithm of exactly 512 characters. So do NextColumn, ProcessSteps and the value-level lookups behind them (Lookup, NextImage, Steps and the lemmas about them). GetPixelBlock and ReadPixel require only a non-empty algorithm on odd steps, when they read its first character for pixels outside the image. The C# indexes the algorithm only at the 9-bit value it needs (`AdventOfCode/Day20/Day20.cs:68`), so a longer algorithm would work there, and a shorter one throws only when a high index is read.
- DayFourPlay.FindWinningBoards: requires `Separate`, meaning no two bingo boards share a cell array. The C# parser builds a fresh array per board, and aliasing between boards is not modelled. Play has the same requirement.
- Day25Map.Map.Move: requires both points inside the grid. The C# would throw IndexOutOfRangeException outside it, but its callers only pass wrapped neighbours.
- Day8.GetTranslationTable: its result is stated only for inputs that are the ten digit patterns of some wiring. On other inputs it returns some result or error, as the C# does, but the model says nothing about it.
- DaySix.HistogramOfListStep: the list and the tally versions of a day are proved to agree only on non-negative timers. On a negative timer they differ: the list turns it into a new fish, while the tally moves it one further below zero. Puzzle timers are 0 to 8.

Weaker contracts:
- Day15.LowestRisk: the result is the risk of a real walk from corner to corner, as recorded in the search's path map. That it is the least such risk (Dijkstra's optimality) is not proved. Day15_Bad.FindShortestPath is proved minimal over all simple paths.
- Day9: `Process`'s product of the three largest basins and `GetRiskLevel` are left out, and so is the link between `Visited.Count` and the cells of the basin.
- Day18Search.Copy: models the deep copy as the identity, because the trees are values. The parent pointers it rebuilds are replaced by paths.
- Day22Reactor.Process: the total is proved to be the sum of the volumes of disjoint lit cubes that cover exactly the lit points. Counting points one by one is not modelled.
- Day22Tree.CreateChildren: the three nested loops over x, y and z at `AdventOfCode/Day22/Day22.cs:420-437` are one loop over the octant number 4x + 2y + z, which visits the octants in the same order.
- Day22.Octant: uses the corrected halves FirstHalf and SecondHalf. They equal GetFirstHalf and GetSecondHalf on every valid range (HalvesAgreeOnValid) and differ only on empty ranges (see Findings).

Parts of the code not modelled:
- DaySix: its dictionary half is modelled once, in Day6, because it is the code of Day6 line for line. InitializeFishAges (`AdventOfCode/DaySix/DaySix.cs:36-46`), GetNextIterationByCount (48-69), AddToKey (71-79) and GetFishAgesByDayCount (103-113) are Day6.InitializeFishAges, Day6.GetNextIteration, Day6.FishAges.AddToKey and Day6.GetFishAgesByDayCount.
- Day12: `FormatRoute` is output only. `KeyifyEdge` and `edgesVisited` are computed but never read.
- Day11: `Process`'s loop over the steps is not modelled; one step is.
- Day13: the folding loops are modelled as functions over the dot sets.
- Day14: `nextElementMap` is built but never used.
- Day16: the optional `totalBitCount` parameter of ReadLiteralPacket is not modelled. No caller passes it (`AdventOfCode/Day16/Day16.cs:304`), so its padding skip at 279-282 is never reached.
- Day17: `Process` does not call `FindMaximumY`, because that call is commented out (`AdventOfCode/Day17/Day17.cs:17-18`). The method itself is modelled.
- Day19: only the integer helpers are modelled. `FindBeacons`, the rotations (floating point) and the overlap cache are not.
  - Day19.ValueByAxis: the `XNeg`, `YNeg` and `ZNeg` branches return +X, +Y and +Z, as written (`AdventOfCode/Day19/Day19.cs:462-472`).
- Day20: `GetRelevantPixels` is never called, and `Print` is output.
- Day21: the `int x = 42` debug line in `Solve` is not modelled. The win counts may exceed `long` in C#, but the model is unbounded. GetLoser is latent (see Findings).
- Day22: text parsing is not modelled.
  - `SplitObjects`, `Test` and `TargetCube` are never reached. `AddIfMissing`, `RemoveIfPresent` and `GetCubePoints` are never called.
  - The node labels and the static `SingleSplits`/`SplitAttempts` counters only serve output.
  - Volumes are unbounded integers, not `long`.
- Day23: `IsBlocking`, `IsBlocked`, `IsInFinalPosition`, the recursive `FindMoveSets` and its helpers are never reached from `Process`.
  - The map's `_hash` cache is modelled as the hash function of the current values. The C# cache would go stale after MakeMove, but the search only reads hashes of maps built by the moving constructor.
  - `FindValidMoves` walks `map.Values`. The model walks the cells in hash order, and ValidMovesLegal holds for the set of moves whatever the order.
- Day24: not all of it is modelled.
  - The pruned depth-first search `FindSmallestLargestRecursive`/`...Fast` and `FindLargestOrSmallest` are not modelled, and neither is `PowerCache`, which uses floating point.
  - Also left out: `RunInput`, whose loop only prints, `Group`, `GetDescription` and the parser.
  - In passing: the constructor's largest-first range, `for (int i = 9; i >= 9; i--)` at `AdventOfCode/Day24/Day24.cs:91`, holds only 9. It matters only to the search that is not modelled.
- Day24.Apply: a division or remainder by zero is an `Err`, standing for .NET's DivideByZeroException.
- Day23.HomeTopFrom: the C# `HomeTop` throws when the column is empty. The model returns `None`, which FindValidMoves never meets, because it asks only about an occupied cell.

## Findings

| source | as written | input that shows it | evidently intended | confidence | as-written member | corrected member |
|---|---|---|---|---|---|---|
| AdventOfCode/Day18/Day18.cs:29-33 | FindLargestMagnitude adds each pair only as nodeSet[first] + nodeSet[second] with first < second. Snailfish addition is not commutative. | [1,1] then [2,2]: the one order tried gives magnitude 35, the other order gives 40 | try both orders of every pair of different numbers | not executed | Day18Search.OneOrderMissesLarger | Day18Search.FindLargestMagnitudeEitherOrder |
| AdventOfCode/Day21/Day21.cs:203-213 | GetLoser pairs Player1Score with index 1 and Player2Score with index 0. GetWinner (191-201) uses 0 for player 1. There is no caller, so the defect is latent. | scores 5 for player 1 and 21 for player 2: GetLoser gives (5, 1), naming index 1, which is player 2, the winner | the loser is the player GetWinner does not name | not executed | Day21.LoserIsWinner | Day21.ScoreOfLoser |
| AdventOfCode/Day12/Day12.cs:113-116 | ShouldExplore always lets the search enter a big cave, so two adjacent big caves make FindRoutesFrom recurse between them for ever | edges start-A, A-B, B-end with A and B big: the search alternates A, B, A, B, ... | the search ends on every graph; puzzle inputs never join two big caves | not executed | Day12.BigPairEndless | Day12.FindRoutes |
| AdventOfCode/Day22/Day22.cs:443-451 | GetFirstHalf/GetSecondHalf compute (Max - Min) / 2 with C#'s truncation. On an empty range (Max = Min - 1) the first half is a non-empty range outside the parent. The second half stays empty. | the empty range 1..0: GetFirstHalf gives 1..1, which holds 1 | halves that split the range's values between them, so an empty range has empty halves (FirstHalf and SecondHalf, floor division) | not executed | Day22.HalfOfEmptyRangeIsNot | Day22.HalvesSplit |
