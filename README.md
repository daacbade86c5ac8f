# aoc2020 in Dafny

A Dafny model of the 25 daily puzzle solutions of the Rust repository
aoc2020 (`src/day01.rs` … `src/day25.rs`), with proofs about it. Every day
has its own module `DayNN` in `dayNN.dfy`. Each module holds the parser of
that day's input, the two parts, and the algorithms behind them. Shared
pieces have their own modules:

- `Text`: `Option`, digits, number parsing and printing, splitting on a
  separator, on white space, into lines and into paragraphs.
- `Seqs`: sums, counts, minimum and maximum, insertion sort.
- `Folds`: sums and products over sets and map values, in any iteration
  order.
- `Bits`: powers of two, bitwise `or` and `and` on naturals.
- `Arith`: small facts about `%`.
- `Matching`: eliminating candidates to assign keys to values. Day 16 uses
  it for rules and positions, day 21 for allergens and ingredients.

The model follows the code's own form:

- Pure parsing and evaluation code is functions over datatypes.
- Loops are methods with invariants, each proved against a reference
  function.
- Objects updated in place are classes:
  - the passport builder (day 4);
  - the machine (day 8);
  - the sorted vector and cipher check (day 9);
  - the ship (day 12);
  - the decoder states (day 14);
  - the `VecMap` and `SizedMap` (day 15);
  - the tile (day 20);
  - the decks (day 22);
  - the cup circle over an array (day 23);
  - the hex grid (day 24).

Input is taken as a string or as its lines. Reading files and printing
answers are not modelled. Parsers return `None` where the source's `unwrap`,
`parse` or slice would panic. Panics inside the algorithms, and loops the
source does not guarantee to finish, become preconditions or a `fuel`
bound; the "Left out" section lists each one. Hash-map iteration order is
an `order` parameter listing the keys.

Each part is proved against an independent statement of what it computes:

- day 1: the pair or triple summing to 2020;
- day 7: the bags that hold shiny gold;
- day 9: the first number that is not a sum of two preamble numbers;
- day 10: the number of arrangements;
- day 13: the congruences part 2 satisfies;
- day 15: the game;
- day 17: the cells of the next cycle;
- day 18: the product of the sums of the '*'-separated segments, for the `+`-first rule;
- day 19: membership in the grammar's language;
- day 22: the game, with the seen decks as sets of decks;
- day 23: the circle as a sequence of labels;
- day 25: the least loop size that transforms the subject into the public key.

Round trips (parse after print), invariants and uniqueness results are
lemmas.

## Model

| member | source | states |
|---|---|---|
| Day01.ParseExpenses | src/day01.rs:21-31 | every line is read as an `i32`; the parse fails exactly when some line is not one |
| Day01.CollectSet | src/day01.rs:21-31 | collecting into a `BTreeSet` yields a strictly ascending sequence with exactly the parsed values |
| Day01.Part1From | src/day01.rs:34-43 | the loop returns the product for the first element, in iteration order, whose complement to 2020 is in the set; `None` iff no element has one |
| Day01.Part1Correct | src/day01.rs:33-44 | `part_1` returns a·b for a, b in the set with a + b = 2020 (a may equal b), with the smallest such a; `None` iff no such pair exists |
| Day01.Part1 | src/day01.rs:33-44 | `part_1`: the loop started at the set's first element; Part1Correct states its answer |
| Day01.Part2Inner | src/day01.rs:48-55 | the inner loop finds a second expense whose completion to 2020 is in the set, or `None` iff there is none |
| Day01.Part2From | src/day01.rs:47-58 | the outer loop returns a·b·c for some pair of positions whose completion is in the set; `None` iff no pair has one |
| Day01.Part2Correct | src/day01.rs:46-59 | `part_2` returns a·b·c for three members (repeats allowed) summing to 2020; `None` iff no such triple exists |
| Day01.Part2 | src/day01.rs:46-59 | `part_2`: the outer loop started at the set's first element; Part2Correct states its answer |
| Day01.Example | src/day01.rs:33-59 | on the puzzle's example report, `part_1` = 514579 and `part_2` = 241861950 |
| Day02.ParseByte | src/day02.rs:41-46 | `u8` parse: succeeds only with a decimal value below 256 |
| Day02.Parse | src/day02.rs:31-53 | every line parses, in order, or the whole parse fails on a line that does not |
| Day02.ParseShowLine | src/day02.rs:31-53 | a line "min-max c: password" is read back as exactly its rule and password bytes |
| Day02.Counts | src/day02.rs:55-64 | the map's keys are exactly the password's bytes and each value is that byte's number of occurrences |
| Day02.CharCount | src/day02.rs:55-64 | the counting loop produces exactly `Counts(password)` |
| Day02.CountsTotal | src/day02.rs:55-64 | the counts sum to the password's length |
| Day02.ValidPart1 | src/day02.rs:66-73 | valid iff the byte occurs and its count lies in [min, max]; an absent byte is invalid even when min = 0 |
| Day02.ValidPart2 | src/day02.rs:89-92 | `valid_part_2`: exactly one of the 1-based positions `min` and `max` holds the letter, both in range as the unchecked indexing needs; ValidPart2Exactly states it |
| Day02.ValidPart2Exactly | src/day02.rs:89-92 | valid iff exactly one of the two 1-based positions holds the byte; never valid when both positions are the same |
| Day02.CountValid | src/day02.rs:75-83 | the count is at most the number of entries, 0 iff no entry is valid and the full length iff every entry is |
| Day02.CountValidAppend | src/day02.rs:75-83 | counting distributes over concatenation of entry lists |
| Day02.Part1 | src/day02.rs:85-87 | `part_1`: the entries whose password meets the count policy (CountValid with ValidPart1) |
| Day02.Part2 | src/day02.rs:94-96 | `part_2`: the entries whose password meets the position policy (CountValid with ValidPart2), given positions in range for the indexing |
| Day02.ExamplePart1 | src/day02.rs:85-87 | two passwords of the puzzle's example meet the part-1 policy |
| Day02.ExamplePart2 | src/day02.rs:94-96 | one password of the puzzle's example meets the part-2 policy |
| Day03.ParseShowRow | src/day03.rs:20-25 | reading a row back from its drawing ('#' for a tree, '.' otherwise) gives the row |
| Day03.ParseRowCells | src/day03.rs:23 | every byte becomes one cell, a tree exactly where the byte is '#' |
| Day03.Parse | src/day03.rs:20-25 | one row per line, in order |
| Day03.StepByLength | src/day03.rs:28-30 | `step_by(dy)` visits a k-th row exactly when k·dy is inside the forest, i.e. ⌈rows/dy⌉ rows |
| Day03.StepByAt | src/day03.rs:28-31 | the k-th visited row is row k·dy |
| Day03.Hits | src/day03.rs:31-35 | the k-th visited row is looked at in column (k·dx) mod its width |
| Day03.TreesInSlopeCounts | src/day03.rs:27-37 | the slope's count is the number of visited rows with a tree at (k·dx) mod width, at most one per visited row |
| Day03.TreesInSlope | src/day03.rs:27-37 | `trees_in_slope`: the trees hit on every `dy`-th row, moving `dx` columns per visited row modulo the row length; TreesInSlopeCounts states the count |
| Day03.Part1 | src/day03.rs:39-41 | `part_1`: the trees on the slope right 3, down 1; PartsCountSlopes states the count |
| Day03.Part2 | src/day03.rs:43-49 | `part_2`: the product over the five slopes; PartsCountSlopes and Part2HasPart1Factor state it |
| Day03.PartsCountSlopes | src/day03.rs:39-49 | part 1 is the number of visited rows with a tree on the slope (3, 1), and part 2 the product of those numbers for (1, 1), (3, 1), (5, 1), (7, 1) and (1, 2) |
| Day03.Part2HasPart1Factor | src/day03.rs:39-49 | the part-2 product includes the part-1 slope, so it is 0 when that slope meets no tree, and 0 for a forest without trees |
| Day04.ParseHeight | src/day04.rs:28-37 | a "cm"/"in" suffix selects the unit and parses the rest; otherwise the whole value is a bare number; values shorter than two bytes fail |
| Day04.Apply | src/day04.rs:130-147 | a pair shorter than four bytes or with an unknown key fails; `byr`, `iyr`, `eyr`, `cid` and `hgt` succeed exactly when bytes 4.. parse and then hold the parsed value; `hcl`, `ecl`, `pid` always succeed and hold bytes 4.. verbatim; every other field is unchanged |
| Day04.ApplyOverwrites | src/day04.rs:130-147 | a repeated key overwrites: after the second pair the first has no effect |
| Day04.ApplyLinesFailed | src/day04.rs:173-176 | a record that has met a failing pair cannot recover with later lines |
| Day04.Records | src/day04.rs:163-184 | the batch reading succeeds iff every record builds from scratch, giving one builder per record in order |
| Day04.ParseLine | src/day04.rs:173-176 | the loop over one line's pairs leaves the builder at `ApplyWords` of its white-space-separated words, and reports failure exactly when that fails |
| Day04.PassportBuilder.constructor | src/day04.rs:117-128 | a new builder has no field set |
| Day04.PassportBuilder.Parse | src/day04.rs:130-147 | the in-place update succeeds iff `Apply` does and then leaves exactly `Apply`'s builder; a failure writes no field |
| Day04.ParseBatch | src/day04.rs:163-184 | the line loop pushing a builder at each empty line and at the end computes exactly `Records(Paragraphs(lines))` |
| Day04.Build | src/day04.rs:149-160 | a passport is built iff the seven required fields are present; `cid` is carried over as it is |
| Day04.HexFrom | src/day04.rs:74-79 | the byte loop accepts iff every remaining byte is in 0-9 or a-f |
| Day04.DigitsFrom | src/day04.rs:93-98 | the byte loop accepts iff every remaining byte is a decimal digit |
| Day04.Valid | src/day04.rs:53-101 | valid iff the years lie in their ranges, the height is 150-193cm or 59-76in, hcl is '#' and six lower-case hex digits, ecl is one of seven codes and pid is nine digits |
| Day04.Part1 | src/day04.rs:186-191 | `part_1`: the number of records that build; at most the number of records |
| Day04.Part2 | src/day04.rs:193-199 | `part_2`: the number of records that build into a valid passport; Part2AtMostPart1 bounds it by part 1 |
| Day04.Part2AtMostPart1 | src/day04.rs:193-199 | every passport counted by part 2 also builds, so part 2 never exceeds part 1 |
| Day05.ParseSeat | src/day05.rs:20-37 | the byte loop returns `SeatSpec`: `None` iff some byte is not F, B, L or R, otherwise the or of the shifted `current` values of the B/R bytes |
| Day05.SeatSpec | src/day05.rs:20-37 | what `parse_seat` returns: `None` iff some byte is not F, B, L or R, else the seat its letters spell, B and R setting the bit `current` stands at; ParseSeat meets it and SeatValue states its value |
| Bits.OrBit | src/day05.rs:29-31 | or-ing `current` into `seat` sets exactly the bits set in either operand |
| Day05.SeatBitsBit | src/day05.rs:20-37 | byte i of the pass is bit 9 − i of the seat, set exactly for 'B' and 'R'; bits 10 and above stay clear and bytes beyond the tenth are ignored |
| Day05.SeatBitsBound | src/day05.rs:20-37 | every seat number is below 1024 |
| Day05.SeatValue | src/day05.rs:20-37 | a ten-byte pass gives its binary value, most significant byte first; a shorter one that value shifted to the top of the ten bits |
| Day05.ExampleSeat | src/day05.rs:20-37 | the pass "FBFBBFFRLR" is seat 357 |
| Day05.Parse | src/day05.rs:39-44 | the parse succeeds iff every line is a pass, giving their seats in order |
| Day05.Part1 | src/day05.rs:46-48 | the highest seat, which is one of the seats; `None` exactly on an empty list |
| Day05.Part2 | src/day05.rs:50-64 | on every list whose scan never computes `current - 2` below 0 before it stops, the sort-and-pop loop returns `Gap` of the sorted seats |
| Day05.GapBelowFinds | src/day05.rs:55-61 | the downward scan returns the middle of the highest neighbour pair exactly two apart, `None` iff there is none |
| Day05.Part2Correct | src/day05.rs:50-64 | the result s has s − 1 and s + 1 taken and s free, and is the highest such seat; `None` iff there is no such seat (including the empty list) |
| Day05.Part2StopsAbove | src/day05.rs:50-64 | on the seats 0, 1, 5, 7 the loop stops at 7 and 5 before reaching the low seats: the precondition holds and the answer is 6 |
| Day06.AnswersOf | src/day06.rs:34 | a line's answer set holds exactly its characters |
| Day06.Parse | src/day06.rs:23-41 | the line loop pushing a group at every empty line and the last group at the end gives the records between empty lines, each line as its answer set |
| Day06.GroupAnswers | src/day06.rs:43-51 | `get_group_answers`: the sizes of the groups' folds, summed; every group non-empty, as `fold_first().unwrap()` needs |
| Day06.Part1 | src/day06.rs:53-57 | `part_1`: the questions anyone in a group answered, summed over the groups (FoldUnion) |
| Day06.Part2 | src/day06.rs:59-63 | `part_2`: the questions everyone in a group answered, summed over the groups (FoldIntersection, Part2AtMostPart1) |
| Day06.FoldUnion | src/day06.rs:53-57 | the union fold of a group holds exactly the questions someone in it answered |
| Day06.FoldIntersection | src/day06.rs:59-63 | the intersection fold of a group holds exactly the questions everyone in it answered |
| Day06.Part2AtMostPart1 | src/day06.rs:43-63 | with every group non-empty, as `unwrap` demands, each intersection lies inside the union, so part 2 ≤ part 1 |
| Text.ParagraphsNoBlank | src/day04.rs:163-184 | no record of the lines split at empty lines holds an empty line |
| Text.ParagraphsJoin | src/day04.rs:163-184 | splitting lines at empty lines loses nothing: joining the records with empty lines gives the lines back |
| Text.ParagraphsPrefix | src/day04.rs:163-184 | reading more lines only extends the last record started so far |
| Day07.ParseContents | src/day07.rs:37-47 | parsing a rule's contents keeps every key already present; it fails on a four-word chunk whose count is not a number, on a short final chunk other than "no other bags.", and whenever the word count leaves a chunk of one or two words (the source's `unwrap` and `unreachable!`) |
| Day07.ParseRuleWords | src/day07.rs:31-52 | a rule parses only when its third and fourth words are "bags contain", and its key is the first two words |
| Day07.ParseChunkWords | src/day07.rs:37-47 | contents written as "count adj colour bags," chunks read back as exactly the listed entries, later ones overwriting; "no other bags." reads as no entry |
| Day07.ExampleRule | src/day07.rs:127 | the example's first rule reads as light red holding 1 bright white and 2 muted yellow |
| Day07.Parse | src/day07.rs:24-56 | the line loop gives `ParseSpec`: fails iff some line fails, otherwise each line's rule inserted in order, a repeated bag keeping its last rule |
| Day07.Outers | src/day07.rs:63-68 | the inverted map lists, under each bag, exactly the bags holding it directly, and has no empty list |
| Day07.SearchVisit | src/day07.rs:73-83 | popping a bag not yet found marks it found and moves its list of holders onto the stack, keeping the search state |
| Day07.SearchEnd | src/day07.rs:73-85 | when the stack is empty the found set is exactly the set of bags holding shiny gold through some chain |
| Day07.Part1 | src/day07.rs:58-86 | the count is the number of bags that hold shiny gold somewhere inside, given some bag holds it directly (the `unwrap`) |
| Day07.SumInside | src/day07.rs:97-106 | the contents loop reports known iff every inner bag is settled, and then the sum of count · settled total |
| Day07.SettleableExists | src/day07.rs:90-115 | on rules without cycles, a queue that is not empty always holds a bag whose contents are all settled, so requeueing cannot go on forever |
| Day07.NearerRequeue | src/day07.rs:112-114 | pushing an unsettleable bag to the front brings the next settleable bag one pop nearer |
| Day07.Part2 | src/day07.rs:88-120 | on rules without cycles whose inner bags all have rules, the answer is the number of bags inside shiny gold: its total 1 + Σ count · total, less the bag itself |
| Day08.Boot | src/day08.rs:35-43 | a new machine has both registers at zero and every instruction unvisited, in order |
| Day08.Next | src/day08.rs:45-67 | a visited instruction refuses the step; otherwise `acc` adds its delta and advances, `jmp` adds its delta to the counter, `nop` advances, and only the current flag changes, never an instruction |
| Day08.CPU.constructor | src/day08.rs:35-43 | the new CPU's state is `Boot` of the instructions |
| Day08.CPU.Step | src/day08.rs:45-67 | the in-place step reports whether it ran and leaves exactly `Next`'s state, or the old state when it refused |
| Day08.VisitedMark | src/day08.rs:63-64 | marking an unvisited instruction raises the number of visited ones by one |
| Day08.StepVisits | src/day08.rs:45-67 | every step that runs visits one more instruction, so at most as many steps run as there are instructions |
| Day08.Part1 | src/day08.rs:95-101 | on a program whose run loops (the counter never leaving it, which would panic), the result is the accumulator when an instruction is about to repeat |
| Day08.SwapInvolution | src/day08.rs:109-113 | swapping `nop` and `jmp` twice restores the instruction; `acc` is never swapped |
| Day08.TryRun | src/day08.rs:119-125 | one patched run returns the accumulator iff the counter reaches the end after some step, and nothing when a step refuses |
| Day08.Part2 | src/day08.rs:103-129 | the loop over the swaps in index order returns `FirstRepair` of the program: the accumulator of the first swap whose patched run finishes, `None` when none does; it requires only that the swaps it tries, up to and including that one, do not crash (`TriedSafe`) |
| Day08.FirstRepairCorrect | src/day08.rs:103-129 | `FirstRepair` is `Some` iff some swap makes the run finish, and then it is the accumulator of the lowest such index |
| Day08.FirstRepair | src/day08.rs:103-129 | the accumulator of the first swap from index `i` on whose patched run finishes, `None` when none does; FirstRepairCorrect states what it means |
| Day08.NoCrashTriedSafe | src/day08.rs:117-126 | when no patched run crashes, every swap the loop tries is safe, so Part2 applies to every such program |
| Day08.RepairBeforeCrash | src/day08.rs:103-129 | for `nop +2; nop +5` the first swap finishes with accumulator 0 and the second would crash: Part2 applies, returns 0, and the program is not crash-free |
| Day08.ParseInstr | src/day08.rs:70-86 | an instruction parses only with a sign at byte 4 and a known mnemonic in bytes 0-2 |
| Day08.ParseShowInstr | src/day08.rs:70-86 | reading an instruction back from its text "mnemonic ±magnitude" gives the instruction |
| Day08.Parse | src/day08.rs:88-93 | the parse succeeds iff every line is an instruction, giving them in order |
| Day08.ExamplePart1 | src/day08.rs:177-181 | on the example, the loop is detected with accumulator 5 |
| Day08.ExamplePart2 | src/day08.rs:183-187 | on the example, the first repairing swap gives accumulator 8 |
| Day09.Parse | src/day09.rs:22-27 | one `u64` per line; the result is undefined exactly when some line is not a 64-bit natural number |
| Day09.FindLoop | src/day09.rs:49-68 | the as-written binary search stays inside the vector (index 0 on an empty one) |
| Day09.ContainsSpec | src/day09.rs:70-76 | the as-written `contains` is sound: true only for a member |
| Day09.InsertSpec | src/day09.rs:78-81 | the as-written `insert` adds exactly one occurrence of the value |
| Day09.SortedVec.Find | src/day09.rs:49-68 | the loop computes the as-written search and returns an index of a non-empty vector |
| Day09.SortedVec.Contains | src/day09.rs:70-76 | false on an empty vector, and true only for a member |
| Day09.SortedVec.Insert | src/day09.rs:78-81 | the vector gains one occurrence of the value and nothing else |
| Day09.SortedVec.FindSorted | src/day09.rs:48-68 | on an ascending vector, the index where the value belongs: everything before is smaller, everything after no smaller |
| Day09.SortedVec.ContainsSorted | src/day09.rs:70-76 | on an ascending vector, true exactly for a member |
| Day09.SortedVec.InsertSorted | src/day09.rs:78-81 | insertion keeps the vector ascending and adds one occurrence |
| Day09.AsWrittenSound | src/day09.rs:93-111 | whatever the as-written `is_valid` accepts is a genuine sum of two smaller preamble numbers |
| Day09.AsWrittenMisses | src/day09.rs:93-111 | the as-written `is_valid` rejects 7 after the preamble 5, 3, 4 although 3 + 4 = 7 |
| Day09.CipherCheck.IsValidAsWritten | src/day09.rs:93-111 | the loop computes the as-written validity over the as-written working set |
| Day09.CipherCheck.IsValid | src/day09.rs:93-111 | true exactly when the preamble is not yet full or two of its numbers at different positions, both below the value, sum to it |
| Day09.CipherCheck.Advance | src/day09.rs:113-125 | an invalid number leaves the preamble unchanged; a valid one is appended and the oldest dropped once it exceeds the preamble size |
| Day09.Push | src/day09.rs:118-122 | appending keeps a full preamble at its size, dropping only the oldest number |
| Day09.PushWindow | src/day09.rs:118-122 | pushing the number at position i onto the window before i gives the window before i + 1 |
| Day09.Part1 | src/day09.rs:128-138 | the loop returns what the check over the whole cipher reports |
| Day09.CheckFound | src/day09.rs:128-138 | a reported number is the first invalid one from the given position on |
| Day09.CheckNone | src/day09.rs:128-138 | nothing is reported only when every number from the given position on is valid |
| Day09.Part1Correct | src/day09.rs:128-138 | part 1 answers exactly when some number is invalid, and then with the first invalid number, which lies past the preamble |
| Day09.Part2From | src/day09.rs:143-164 | the window loop for a goal: it stops at the unique window `StopsAt` names (the first end at which some run sums to the goal, with the least start) and returns the smallest plus the largest number of that window, `None` only when the window is empty; with a positive goal there is an answer |
| Day09.Shrink | src/day09.rs:150-154 | the inner `while sum > goal` loop: the window stays the run ending at the current number with its sum, the sum falls to at most the goal, and every start it drops begins a run summing above the goal |
| Day09.StopsAtUnique | src/day09.rs:146-158 | at most one window satisfies `StopsAt`, so the loop's answer is determined by the numbers and the goal |
| Day09.Part2 | src/day09.rs:140-165 | with the intended part 1 as goal: an answer exists only when part 1 finds one, and it is the smallest plus the largest number of the window `StopsAt` names for that goal; with a positive goal there is an answer |
| Day09.CipherCheck.AdvanceAsWritten | src/day09.rs:113-125 | as written: a number the as-written check rejects leaves the preamble unchanged; an accepted one is pushed |
| Day09.Part1AsWritten | src/day09.rs:128-138 | as written: the first number the as-written `advance` rejects |
| Day09.CheckAsWritten | src/day09.rs:128-138 | part 1's scan with the as-written `is_valid`: the first number that fails it, each checked number pushed into the window; AsWrittenStopsFirst and Part1AsWritten state it |
| Day09.AsWrittenStopsFirst | src/day09.rs:93-138 | whenever the intended part 1 reports a number, the as-written one reports one too |
| Day09.AsWrittenReportsSum | src/day09.rs:49-68 | on the cipher 5, 3, 4, 7 with a preamble of three the source reports 7 = 3 + 4, where the intended check reports nothing |
| Day09.Part2AsWritten | src/day09.rs:140-165 | the same statement with the as-written part 1 as goal: smallest plus largest of the window `StopsAt` names |
| Day09.ExamplePart1 | src/day09.rs:193-197 | with a preamble of five, part 1 of the example is 127 |
| Day09.ExampleEarlyRuns | src/day09.rs:199-203 | no run of the example ending before its sixth number sums to 127 |
| Day09.ExampleStops | src/day09.rs:199-203 | for goal 127 the example's loop stops at the window 15, 25, 47, 40 |
| Day09.ExamplePart2 | src/day09.rs:199-203 | every window the loop can stop at for 127 gives 62; with ExamplePart1 and Part2, part 2 of the example is 62 |
| Day10.Parse | src/day10.rs:18-26 | one number per line; the parse fails exactly when some line is not a natural number |
| Day10.GapFoldCounts | src/day10.rs:33-40 | the fold adds to its counters the numbers of 1-jolt and 3-jolt gaps between consecutive chain elements |
| Day10.Part1Counts | src/day10.rs:28-43 | part 1 is the number of 1-jolt gaps times one more than the number of 3-jolt gaps of the sorted chain from the outlet |
| Day10.Part1 | src/day10.rs:28-43 | `part_1`: the gap fold over the sorted adapters; Part1Counts states its value |
| Day10.Nodes | src/day10.rs:46-54 | the chain runs from the outlet 0 through the sorted adapters to the device at the largest adapter + 3 |
| Day10.WindowPaths | src/day10.rs:56-62 | on a strictly increasing chain, the chains into a node are the sum of the counts of the window entries within 3 jolts |
| Day10.AdvanceStep | src/day10.rs:64-65 | pushing the new count in front and truncating to three keeps the window the newest three nodes with their chain counts |
| Day10.Part2 | src/day10.rs:45-69 | for a non-empty adapter list (the source unwraps the largest), whenever the chain of outlet, sorted adapters and device is strictly increasing (distinct adapters, none rated 0 jolts), the answer is the number of chains from the outlet to the device rising at most 3 jolts per step |
| Day11.ParseRow | src/day11.rs:36-45 | a row parses exactly when every byte is '#', 'L' or '.', each giving its cell |
| Day11.ParseShowRow | src/day11.rs:39-44 | reading a row back from its display gives the row |
| Day11.Parse | src/day11.rs:29-49 | the map parses exactly when every row does, row by row |
| Day11.Get | src/day11.rs:64-70 | a cell is found exactly inside its row of the map, negative coordinates missing |
| Day11.Stop | src/day11.rs:72-77 | the walk at distance stops at the first step that is not floor, every earlier step being floor |
| Day11.Seen | src/day11.rs:72-81 | at distance, what is seen in a direction is never floor |
| Day11.LookAlong | src/day11.rs:56-79 | the walk of `dx`/`dy` yields the cell seen in that direction |
| Day11.NeighbourCount | src/day11.rs:51-86 | the loops count the occupied seats seen in the 8 directions around the cell, the centre skipped |
| Day11.Neighbours | src/day11.rs:51-86 | a cell has at most 8 occupied neighbours |
| Day11.RuleChanges | src/day11.rs:100-110 | a cell changes exactly when it is an empty seat with no occupied neighbour or an occupied one with at least the tolerance; floor never changes |
| Day11.NextGrid | src/day11.rs:88-114 | a round keeps the number of rows and the length of each |
| Day11.Step | src/day11.rs:88-116 | the new map is every cell rewritten at once, and the change flag is set exactly when the new map differs from the old |
| Day11.CountOccupied | src/day11.rs:118-123 | the occupied seats are at most the cells of the map |
| Day11.StableStays | src/day11.rs:126-140 | once a round changes nothing, every later round gives the same map |
| Day11.Settle | src/day11.rs:126-140 | the loop stops at the first round that changes nothing and counts its occupied seats |
| Day11.Part1 | src/day11.rs:126-132 | the occupied seats of the first stable map with adjacent neighbours and tolerance 4 |
| Day11.Part2 | src/day11.rs:134-140 | the occupied seats of the first stable map with seats seen at distance and tolerance 5 |
| Day12.ToAngle | src/day12.rs:35-42 | every heading is a multiple of 90 below 360 |
| Day12.AngleRoundTrip | src/day12.rs:35-54 | `from_angle` undoes `to_angle`, gives back an angle reduced modulo 360, and ignores whole turns |
| Day12.ParseInstr | src/day12.rs:65-79 | an empty line or a bad number never parses |
| Day12.ParseTurns | src/day12.rs:74-75 | `R n` parses as the turn n and `L n` as the turn 360 - n, failing above 360 |
| Day12.ParseMoves | src/day12.rs:70-76 | `F n` parses as sailing forward n and `N n` as moving north n |
| Day12.Parse | src/day12.rs:19-24 | the parse succeeds exactly when every line does, in order |
| Day12.NextEffects | src/day12.rs:102-122 | a move changes one ship coordinate by its distance, forward moves along the heading, a turn changes only the heading, the waypoint never moves |
| Day12.Next | src/day12.rs:113-122 | `step`: a move in a compass direction, forward along the heading, or a turn by a multiple of 90 degrees; NextEffects and TurnsAdd state its effect |
| Day12.NextWaypoint | src/day12.rs:135-162 | `step_waypoint`: a move of the waypoint, a rotation of it about the ship, or `n` moves of the ship to it; Rotations and ForwardWaypoint state its effect |
| Day12.TurnsAdd | src/day12.rs:120 | two turns in a row are one turn by their sum |
| Day12.Rotations | src/day12.rs:143-160 | a quarter turn maps the waypoint (wx, wy) to (wy, -wx), the other turns are repeated quarter turns, four are the identity, and every turn keeps the waypoint's Manhattan size |
| Day12.ForwardWaypoint | src/day12.rs:138-142 | sailing forward n adds n times the waypoint to the ship and leaves the waypoint |
| Day12.Position.constructor | src/day12.rs:92-100 | the ship starts at the origin heading east with the waypoint 10 east and 1 north |
| Day12.Position.MoveTowards | src/day12.rs:102-111 | the fields move as `move_towards` does on the state |
| Day12.Position.Step | src/day12.rs:113-122 | the fields change as one step of the ship on the state |
| Day12.Position.MoveWaypoint | src/day12.rs:124-133 | the waypoint moves by the distance in the direction |
| Day12.Position.StepWaypoint | src/day12.rs:135-162 | the fields change as one step of the waypoint navigation on the state |
| Day12.Position.Distance | src/day12.rs:164-168 | the Manhattan distance of the ship from the origin |
| Day12.Part1 | src/day12.rs:171-179 | the distance after stepping the ship through all instructions |
| Day12.Part2 | src/day12.rs:181-189 | the distance after stepping the waypoint navigation through all instructions |
| Day12.ExamplePart1 | src/day12.rs:195-205 | the example's ship ends at distance 25 |
| Day12.ExamplePart2 | src/day12.rs:195-211 | the example's waypoint navigation ends at distance 286 |
| Day13.ParseBus | src/day13.rs:30-36 | `x` is the only entry without a bus; any other entry is a bus exactly when it is a number |
| Day13.ParseBuses | src/day13.rs:28-37 | the list parses exactly when every entry does, entry by entry |
| Day13.Parse | src/day13.rs:18-40 | `parse` on the input text: two `read_line`s, each line's last character popped; the empty input fails and the list has at least one entry; ParseShow is its round trip and LastLineWithoutNewline shows the unconditional `pop` |
| Text.ReadLine | src/day13.rs:20-27 | `read_line`: the text up to and including the first newline, or all of it when there is none, and the rest after it |
| Day13.ParseShowBuses | src/day13.rs:28-37 | a written bus list holds no newline and reads back entry by entry |
| Day13.ParseShow | src/day13.rs:18-40 | an input file written as the earliest time and the bus list, each on a line ended by a newline, reads back |
| Day13.LastLineWithoutNewline | src/day13.rs:26-27 | on "939\n7,13", whose list line has no newline, `pop` removes the digit 3, so the buses read are 7 and 1 |
| Day13.Wait | src/day13.rs:45 | the wait is between 1 and `b` and reaches a departure of bus `b` |
| Day13.SoonestFirst | src/day13.rs:43-47 | no answer exactly when no bus is listed; otherwise the chosen bus has the least wait, and no earlier bus has the same wait |
| Day13.Soonest | src/day13.rs:43-47 | `min_by_key` over the listed buses with their waits; each result's wait is `Wait` of its bus; SoonestFirst states which bus |
| Day13.Part1 | src/day13.rs:42-50 | defined exactly when a bus is listed, and then the product of the first bus with the least wait and that wait |
| Day13.ExamplePart1 | src/day13.rs:72-80 | the example answers 295 |
| Day13.KeepsAligned | src/day13.rs:58-60 | adding multiples of a period that the bus divides keeps that bus lined up |
| Day13.AlignedStep | src/day13.rs:57-64 | one fold step keeps every earlier bus lined up, lines up the new one, and keeps the period a multiple of every processed id |
| Day13.ScheduleAligned | src/day13.rs:57-64 | after the fold, every bus leaves its position's minutes after the offset and divides the period |
| Day13.Schedule | src/day13.rs:55-64 | the fold's offset over the first positions; ScheduleAligned and LineUp state it |
| Day13.LineUp | src/day13.rs:58-60 | the inner loop ends lined up, after exactly the least number of added periods |
| Day13.Part2 | src/day13.rs:52-66 | the fold's offset, at which every listed bus leaves as many minutes later as its position |
| Day13.ExamplePart2 | src/day13.rs:72-85 | 1068781 lines up every bus of the example |
| Day14.ParseUsize | src/day14.rs:44-46 | a number parses exactly when it is a decimal that fits in 64 bits |
| Day14.ParseInstr | src/day14.rs:33-50 | a mask line keeps the bytes after " = "; a write's address and value fit the word; any other line is an error |
| Day14.ParseShowInstr | src/day14.rs:33-50 | every instruction whose numbers fit the word reads back from the line it is written as |
| Day14.Parse | src/day14.rs:20-25 | one instruction per line, and the input fails exactly when one of its lines does |
| Day14.ApplyBit | src/day14.rs:76-97 | bit k of a masked value is set exactly when the k-th byte from the end is '1', or is 'X' over a set bit of the value |
| Day14.OrOf | src/day14.rs:68-99 | the `or` mask `decode_mask` builds: one bit per mask character, set for '1', shifted as a `usize` (Shl1); State1.DecodeMask and MaskedValue state its effect |
| Day14.AndOf | src/day14.rs:68-99 | the `and` mask `decode_mask` builds: one bit per mask character, set for '1' and 'X', shifted as a `usize` (Shl1) |
| Day14.MaskedValue | src/day14.rs:104-107 | `(value or OR) and AND` with the decoded masks keeps the value's bits under 'X', forces '1' and '0' bytes, and clears the bits above the mask |
| Day14.UnmaskedValue | src/day14.rs:60-66 | before any mask, a write stores its value unchanged |
| Day14.Run1Masks | src/day14.rs:101-114 | after a program, the masks are those of its last mask line, or the initial ones |
| Day14.Run1Write | src/day14.rs:101-110 | a version 1 write adds its own cell and keeps every other cell; the cell holds the masked value |
| Day14.State1.constructor | src/day14.rs:60-66 | empty memory, AND all ones, OR zero |
| Day14.State1.DecodeMask | src/day14.rs:68-99 | the loop leaves the AND and OR masks the mask describes and keeps memory |
| Day14.State1.Step | src/day14.rs:101-110 | one instruction on the state, as the state function says |
| Day14.State1.Run | src/day14.rs:112-114 | the whole program, as the run function says |
| Day14.Part1 | src/day14.rs:117-121 | the sum of all values in memory after running version 1 |
| Day14.PairsCount | src/day14.rs:136-180 | a mask with n floating bytes decodes into 2^n (or, and) pairs |
| Day14.AddressesFloat | src/day14.rs:136-192 | the addresses a write reaches are exactly those that agree with the address under '0', have 1 under '1' and anything under 'X' |
| Day14.AddressesDistinct | src/day14.rs:136-192 | no address is reached twice by one write |
| Day14.WriteAllKeeps | src/day14.rs:187-189 | writing at a list of addresses adds them with the value and keeps every other cell |
| Day14.Run2Masks | src/day14.rs:182-196 | after a program, the pairs are those of its last mask line, or none |
| Day14.Run2Write | src/day14.rs:182-192 | a version 2 write sets every floating address to the value and keeps every other cell; before any mask it writes nowhere |
| Day14.State2.constructor | src/day14.rs:129-134 | empty memory and no pairs |
| Day14.State2.ShiftEach | src/day14.rs:141-144 | every pair shifted left by one bit |
| Day14.State2.OrEach | src/day14.rs:149-173 | the given low bits or-ed into every pair |
| Day14.State2.DecodeMasks | src/day14.rs:136-180 | the loop leaves the pairs the mask describes and keeps memory |
| Day14.State2.Step | src/day14.rs:182-192 | one instruction on the state, the write loop storing at each address in turn |
| Day14.State2.Run | src/day14.rs:194-196 | the whole program, as the run function says |
| Day14.Part2 | src/day14.rs:198-202 | the sum of all values in memory after running version 2 |
| Day14.ExampleMask | src/day14.rs:208-218 | the first example's mask makes 73 of 11, keeps 101 and makes 64 of 0 |
| Day14.ExamplePart1 | src/day14.rs:208-218 | the first example program leaves a memory summing to 165 |
| Day14.ExampleAddresses2 | src/day14.rs:220-230 | the second example's first mask makes addresses 26, 27, 58 and 59 of 42 |
| Day14.ExampleAddresses3 | src/day14.rs:220-230 | the second example's second mask makes addresses 16 to 19 and 24 to 27 of 26 |
| Day14.ExamplePart2 | src/day14.rs:220-230 | the second example program leaves a memory summing to 208 |
| Text.ParseNumbers | src/day15.rs:27-30 | every comma-separated piece parses as a number, and the input fails exactly when some piece does not |
| Text.ParseShowNumbers | src/day15.rs:27-30 | a comma-separated list of numbers reads back |
| Day15.ParseShow | src/day15.rs:22-31 | starting numbers written with commas and a final newline read back |
| Day15.Parse | src/day15.rs:22-31 | `parse`: drop the final newline, split on commas, read each number; `None` where an `unwrap` panics; ParseShow is its round trip |
| Day15.LastIndexSpec | src/day15.rs:69-73 | the last turn a number was spoken, or none exactly when it never was |
| Day15.Next | src/day15.rs:70-73 | the next number is 0 for a new number and otherwise the age of its previous mention, always less than the turns played |
| Day15.GamePrefix | src/day15.rs:69-74 | a shorter game is a prefix of a longer one |
| Day15.GameBound | src/day15.rs:113-118 | with starting numbers below b and at most b turns, no spoken number reaches b |
| Day15.LatestTurnsIndex | src/day15.rs:62-73 | the table holds each spoken number at its last turn and no other number |
| Day15.TurnStep | src/day15.rs:69-74 | one insert on the table yields the table of the next turn, and its old entry gives the next number |
| Day15.SimulateTo | src/day15.rs:55-77 | with a `HashMap`, the number spoken at turn nth of the game; the last starting number when nth does not pass them |
| Day15.HashTurn | src/day15.rs:69-74 | one pass of the loop on a `HashMap` moves the table and the current number one turn further in the reference game |
| Day15.VecInsert | src/day15.rs:85-93 | a `VecMap` insert returns the old value at the key and leaves the map with the key set, as a `HashMap` insert does |
| Day15.VecMap.Insert | src/day15.rs:85-93 | the vector is grown with `None` until the key is an index, then the slot is taken and overwritten |
| Day15.VecMap.FromIter | src/day15.rs:96-105 | the map built from pairs holds what inserting them in order into a `HashMap` holds |
| Day15.SimulateToVec | src/day15.rs:55-77 | with a `VecMap`, the same number as the reference game |
| Day15.VecTurn | src/day15.rs:69-74 | one pass of the loop on a `VecMap` moves the table and the current number one turn further in the reference game |
| Day15.SizedInsert | src/day15.rs:113-118 | a `SizedMap` insert below its size behaves as a `HashMap` insert |
| Day15.SizedCollision | src/day15.rs:113-118 | keys 0 and 2048 share a slot of a 2048-slot map, so the map loses the entry a `HashMap` keeps |
| Day15.SizedMap.Insert | src/day15.rs:113-118 | the slot of the key modulo the size is taken and overwritten |
| Day15.SizedMap.FromIter | src/day15.rs:121-130 | starting from all `None`, every pair is inserted; while the keys fit, the contents are those of a `HashMap` |
| Day15.SizedLoopStep | src/day15.rs:69-74 | one pass on the slots keeps every stored turn earlier than the next, and while the keys fit it follows the reference game |
| Day15.SimulateToSized | src/day15.rs:55-77 | with a `SizedMap` of n slots, the number of the reference game whenever the starting numbers are below n and nth is at most n, as in the 2048-slot, 2020-turn tests |
| Day15.SizedTurns | src/day15.rs:69-76 | the turn loop over the slots returns the reference game's number when the keys fit |
| Day15.SizedTurn1 | src/day15.rs:70-73 | one pass of the loop keeps the loop invariant one turn further |
| Day15.Part1 | src/day15.rs:33-35 | turn 2020 of the game |
| Day15.Part2 | src/day15.rs:37-39 | turn 30000000 of the game |
| Day15.GameExample | src/day15.rs:69-74 | the game started with 0, 3, 6 speaks 0, 3, 6, 0, 3, 3, 1, 0, 4, 0 |
| Day16.ParseShowRange | src/day16.rs:132-137 | a range written as `start-end` parses back to itself |
| Day16.ParseShowRule | src/day16.rs:129-140 | a rule written as two ranges around ` or ` parses back to itself |
| Day16.ParseShowRuleLine | src/day16.rs:158-161 | a rule line `name: rule` parses back to its name and rule when the name has no colon |
| Day16.RulesSectionParse | src/day16.rs:155-164 | the rules section parses to the map collected from its lines, a later line of the same name winning |
| Day16.MySectionParse | src/day16.rs:31-32 | the second line of the "your ticket" section parses back to my ticket |
| Day16.NearbySectionParse | src/day16.rs:34-36 | the lines after the "nearby tickets" heading parse back to the nearby tickets |
| Day16.ThreeSections | src/day16.rs:28 | three sections without blank lines, joined by blank lines, split back into the three |
| Day16.ParseShowInput | src/day16.rs:22-43 | a whole input file written from rules with proper names and non-empty tickets parses back to those rules, my ticket and the nearby tickets |
| Day16.Parse | src/day16.rs:22-43 | `parse`: the rules, my ticket and the nearby tickets from the three blank-line separated sections; `None` where an `unwrap` panics; ParseShowInput is its round trip |
| Day16.MatchCountZero | src/day16.rs:111-118 | a field matches no rule exactly when no rule's ranges contain it |
| Day16.CheckRulesSpec | src/day16.rs:108-122 | `check_rules` keeps exactly the ticket's fields that no rule takes |
| Day16.CheckRulesAppend | src/day16.rs:108-122 | `check_rules` works field by field, keeping ticket order |
| Day16.CheckRulesEmpty | src/day16.rs:57 | a ticket is valid exactly when every one of its fields matches some rule |
| Day16.ErrorRateValid | src/day16.rs:45-51 | valid tickets contribute nothing to the error rate |
| Day16.ErrorRateAppend | src/day16.rs:45-51 | the error rate of two batches of tickets is the sum of their rates |
| Day16.ErrorRate | src/day16.rs:45-51 | the sum over the nearby tickets of the fields no rule takes; ErrorRateValid and ErrorRateAppend state it |
| Day16.Part1 | src/day16.rs:45-51 | `part_1`: the error rate of the nearby tickets |
| Day16.TicketIndices | src/day16.rs:99-106 | the positions of a ticket whose field satisfies the rule, and no others |
| Day16.RuleIndices | src/day16.rs:142-148 | the positions every ticket accepts for the rule; `None` (the source's `unwrap` panic) exactly when there are no tickets |
| Day16.ValidTickets | src/day16.rs:54-59 | the kept tickets are nearby tickets that break no rule |
| Day16.ValidTicketsKeep | src/day16.rs:54-59 | every nearby ticket that breaks no rule is kept |
| Day16.Candidates | src/day16.rs:63-68 | each rule's candidate positions over the valid tickets; `None` (the `unwrap` of an empty fold) exactly when there is a rule and no valid ticket |
| Day16.QueueInv | src/day16.rs:63-68 | the first queue holds every rule once, with all its candidates, and nothing is known yet |
| Day16.RequeueInv | src/day16.rs:73-76 | a rule with more than one candidate left goes back to the front with its candidates narrowed, keeping the worklist invariant |
| Day16.SolveInv | src/day16.rs:77-81 | a rule with a single new candidate is settled on it; the settled positions stay distinct and exactly the known indices |
| Day16.Assign | src/day16.rs:70-82 | the loop computes `Work` on the queue built in the map's order; when it finishes, every rule has a position among its candidates and no position is given to two rules |
| Day16.WorkAgrees | src/day16.rs:70-82 | from a state agreeing with an assignment m that fits the candidates, the worklist never panics, and a finished worklist has settled exactly m |
| Day16.WorkCompletes | src/day16.rs:70-82 | when m can be peeled, one rule at a time having only its own position left, enough turns finish the worklist on exactly m |
| Day16.AssignAgrees | src/day16.rs:61-82 | for every fitting assignment m (each rule a distinct position among its candidates), the worklist never panics and any result is m |
| Day16.AssignCompletes | src/day16.rs:61-82 | when m fits and peels, n² turns for n rules settle exactly m, whatever the queue order |
| Day16.AssignUnique | src/day16.rs:61-82 | when m is the only fitting assignment, n² turns for n rules settle exactly m |
| Matching.UniquePeels | src/day16.rs:70-82 | a unique fitting assignment can always be peeled: whatever keys are settled as in it, another key has only its own value left |
| Day16.DepartureStep | src/day16.rs:84-88 | one name of the product: it fails exactly on a departure rule whose position lies outside my ticket, else the product so far grows by that field |
| Day16.Departures | src/day16.rs:84-88 | the product of my fields at the departure rules' positions; `None` (the source's index panic) exactly when one lies outside my ticket |
| Day16.FitsOne | src/day16.rs:142-148 | a candidate position of a rule lies within every valid ticket and satisfies the rule there |
| Day16.KnownFits | src/day16.rs:53-82 | the settled positions fit every valid nearby ticket |
| Day16.Part2 | src/day16.rs:53-89 | the answer is `Answer`: a result exactly when there is a valid nearby ticket (or no rule), the worklist finishes and every departure position lies inside my ticket, and then the departure product over the settled positions, an injective assignment that fits every valid nearby ticket |
| Day16.AnswerUnique | src/day16.rs:53-89 | when the valid nearby tickets admit exactly one fitting assignment, n² turns for n rules give the departure product over it, provided its departure positions lie inside my ticket |
| Day16.ExamplePart1 | src/day16.rs:179-196 | the example's nearby tickets have error rate 71 |
| Day16.ExampleChecks | src/day16.rs:188-191 | the example's nearby tickets break no rule, then 4, 55 and 12 |
| Day16.ErrorRateFour | src/day16.rs:45-51 | the error rate of four tickets is the sum of their unmatched fields |
| Text.ParseEach | src/day16.rs:36 | a list of pieces parses exactly when every piece does, to the pieces' values in order |
| Text.ParseEachAll | src/day16.rs:36 | pieces that each parse to a value parse together to the list of those values |
| Day07.Visit | src/day07.rs:92-114 | one turn keeps the queue invariant and either shortens the queue or brings the next settleable bag one pop nearer |
| Day11.StepRow | src/day11.rs:95-112 | one row of the new map is that row of the reference next map, and the change flag becomes set exactly when the row differs |
| Day11.ChangedRow | src/day11.rs:89-114 | a cell changed before the next row exactly when one changed in earlier rows or in this one |
| Day05.PopScan | src/day05.rs:53-63 | the pop loop over the sorted seats returns `Gap` of them |
| Day01.Part1Found | src/day01.rs:33-44 | when `part_1` answers, its answer is the product of a pair summing to 2020 whose smaller element is the least such |
| Day01.Part1Missing | src/day01.rs:33-44 | when `part_1` answers nothing, no pair sums to 2020 |
| Day02.CountsSnoc | src/day02.rs:55-64 | one more byte bumps its own count and leaves the others |
| Day14.PairsFixed | src/day14.rs:136-180 | a '0' or '1' byte doubles every (or, and) pair and sets its low bits as the byte says |
| Day14.PairsX | src/day14.rs:136-180 | an 'X' byte doubles every pair twice over: once with both low bits clear, then once with both set |
| Day14.AddressesDoubled | src/day14.rs:136-192 | one more mask byte doubles each address, adding the bit the byte forces, or both bits for an 'X' |
| Day14.RunTwoWrites | src/day14.rs:182-196 | a program of mask, write, mask, write leaves the memory of the two writes in turn |
| Arith.MulMod | src/day25.rs:57-58 | a factor may be reduced modulo the divisor before multiplying |
| Day25.TrimEnd | src/day25.rs:26 | the result is a prefix, ends in a non-space, and only white space was dropped |
| Day25.ParseShow | src/day25.rs:22-32 | two public keys written on two lines read back |
| Day25.Parse | src/day25.rs:22-32 | `parse`: the card and door public keys on the first two lines; `None` where an `unwrap` panics; ParseShow is its round trip |
| Day25.PowMod | src/day25.rs:49-61 | the base of a power may be reduced modulo m first |
| Day25.TransformPow | src/day25.rs:49-61 | for a subject below m, k steps of the transform give s^k mod m |
| Day25.Transform | src/day25.rs:49-61 | the value `find_key` reaches after `k` steps, below the modulus after the first; TransformPow states it |
| Day25.LoopSizeUnique | src/day25.rs:34-47 | the least loop size reaching a public key is unique |
| Day25.FindLoopSize | src/day25.rs:34-47 | returns the least k >= 1 whose transform is the public key |
| Day25.FindKey | src/day25.rs:49-61 | returns the transform of the subject after loop_size steps |
| Day25.RoundTrip | src/day25.rs:83-86 | the key for the found loop size is the public key searched for |
| Day25.Part1 | src/day25.rs:63-66 | the card's public key transformed by the door's least loop size |
| Day25.SharedKey | src/day25.rs:63-66 | card key by door loop size equals door key by card loop size |
| Day25.ExampleLoopSizes | src/day25.rs:83-84 | 8 and 11 are the loop sizes of 5764801 and 17807724 |
| Day25.ExampleSimple | src/day25.rs:80-87 | the searches give 8 and 11 and the transforms give the keys back |
| Day25.ExamplePart1 | src/day25.rs:90-93 | part_1 on the example gives 14897079 |
| Day24.ShowDir | src/day24.rs:39-53 | each direction is written as one of e, w, or s/n followed by e/w |
| Day24.ParseCons | src/day24.rs:39-53 | a written direction parses to that direction, then parsing continues after it |
| Day24.ParseShowLine | src/day24.rs:37-62 | a written walk parses back to itself |
| Day24.ParseLine | src/day24.rs:37-62 | one line of `parse`: 'e' and 'w' alone, 's' and 'n' followed by 'e' or 'w'; `None` for anything else; ParseShowLine and ShowParseLine are its round trips |
| Day24.ShowParseLine | src/day24.rs:37-62 | a line that parses is exactly the rendering of its directions: nothing is skipped |
| Day24.ParseShow | src/day24.rs:30-65 | walks written one per line parse back |
| Day24.Parse | src/day24.rs:30-65 | `parse`: one walk per line; ParseShow is its round trip |
| Day24.Move | src/day24.rs:74-105 | a move keeps the cube coordinate sum and always leaves the tile |
| Day24.Opposite | src/day24.rs:78-105 | moving in the opposite direction undoes a move |
| Day24.Walk | src/day24.rs:114-119 | every walk from the reference tile ends on a tile with x + y + z == 0 |
| Day24.WalkCancel | src/day24.rs:78-105 | a step followed by its opposite leaves a walk's end tile unchanged |
| Day24.Locate | src/day24.rs:115-119 | following a line's directions from the origin ends on the walk's tile |
| Day24.Toggle | src/day24.rs:121-125 | flipping changes the colour of that tile and of no other |
| Day24.ToggledParity | src/day24.rs:114-126 | a tile is black iff it was flipped an odd number of times |
| Day24.Neighbours | src/day24.rs:138-143 | the six neighbours of a tile are distinct and one per direction |
| Day24.NeighbourBack | src/day24.rs:138-143 | a tile is the opposite neighbour of each of its neighbours |
| Day24.NeighbourCountAdd | src/day24.rs:134-146 | adding a black tile adds one to the count of each of its neighbours only |
| Day24.NextRule | src/day24.rs:148-154 | a tile is black next iff it has two black neighbours, or is black with one; other tiles stay white |
| Day24.CountAdjacentDistinct | src/day24.rs:134-146 | over distinct black tiles, the bumps a tile receives are its black neighbour count |
| Day24.Bump | src/day24.rs:142-143 | bumping a neighbour's entry adds exactly one to its count |
| Day24.Flag | src/day24.rs:135-136 | the black tile's own entry is created if needed and flagged black |
| Day24.AddTile | src/day24.rs:134-145 | after one black tile the map tallies it: its own flag and one bump per neighbour |
| Day24.PartialDone | src/day24.rs:134-145 | six bumps complete the tally of one tile |
| Day24.Grid.FromDirs | src/day24.rs:114-129 | a tile ends black iff an odd number of walks end on it |
| Day24.Grid.Step | src/day24.rs:131-155 | the new grid's black tiles are exactly those the day's rule makes black |
| Day24.Grid.RunSteps | src/day24.rs:157-161 | after n steps the grid is the n-th day |
| Day24.Part1 | src/day24.rs:164-167 | the number of tiles flipped an odd number of times |
| Day24.Part2 | src/day24.rs:169-173 | the number of black tiles after a hundred days |
| Day23.LabellingFacts | src/day23.rs:21-27 | a labelling of lo..=hi has hi - lo + 1 cups, holds exactly the labels lo..=hi and repeats none |
| Day23.DestDistance | src/day23.rs:82-94 | the destination is one to four labels below the current cup, the first such label not picked up |
| Day23.Destination | src/day23.rs:82-94 | the destination is a label in range, not the current cup and not picked up, with every label between it and the current cup picked up |
| Day23.DestIndex | src/day23.rs:82-98 | the destination sits in the circle after the three picked-up cups |
| Day23.StepOrder | src/day23.rs:70-106 | a move keeps every label exactly once, starts the circle at the cup after the picked-up ones and ends it at the old current cup |
| Day23.StepPlacesPickup | src/day23.rs:96-102 | after a move the destination is followed by the three picked-up cups in their old order |
| Day23.Iterate | src/day23.rs:108-112 | any number of moves keeps every label exactly once |
| Day23.StepLinks | src/day23.rs:96-105 | the three rewritten links form one cycle: that of the circle after the move |
| Day23.PickupLinks | src/day23.rs:71-79 | the three picked-up cups and the cup after them are the next four cups of the circle |
| Day23.Circle.Parse | src/day23.rs:30-68 | the array links the digits in input order, then the labels above the largest digit up to N, in one cycle from the first digit; min is the smallest digit |
| Day23.Circle.Make | src/day23.rs:30-68 | the fields parse computes: a cycle over the digits and the labels above them, from the first digit |
| Day23.Circle.Build | src/day23.rs:31-61 | the filled array is one cycle over the digits followed by the labels above the largest up to N |
| Day23.Circle.ScanDigit | src/day23.rs:40-52 | one digit more is linked after the previous one and folded into the running minimum and maximum |
| Day23.Circle.LinkDigits | src/day23.rs:34-52 | the digits are chained in input order, with the first, the last, the smallest and the largest digit found |
| Day23.Circle.LinkAbove | src/day23.rs:54-58 | the labels above the largest digit are chained after the last digit, and max becomes N |
| Day23.Circle.Close | src/day23.rs:60 | linking the last cup back to the first closes the chain into a cycle |
| Day23.Circle.Step | src/day23.rs:70-106 | one move rewrites exactly three links, keeps one cycle and gives the circle StepOrder describes |
| Day23.Circle.Move | src/day23.rs:71-105 | the new current cup is the cup after the picked-up ones and the links form the next circle |
| Day23.Circle.FindDestination | src/day23.rs:82-94 | the countdown with wrap-around stops at the destination cup |
| Day23.Circle.RunSteps | src/day23.rs:108-112 | n moves give the circle of n moves |
| Day23.ParseInput | src/day23.rs:14-19 | the last character is dropped and the rest parsed into a valid circle from the first digit |
| Day23.After1Labels | src/day23.rs:115-131 | the labels after cup 1 are every label but 1, each once |
| Day23.RotateAt1 | src/day23.rs:120-130 | the circle read from cup 1 is cup 1 followed by the labels after it |
| Day23.RotateLinks | src/day23.rs:120-130 | a cycle of links read from another cup is still a cycle |
| Day23.ShowLabelsSnoc | src/day23.rs:128 | writing one more label appends its decimal digits |
| Day23.DigitsShowLabels | src/day23.rs:14-19 | labels below ten written one digit each read back as the same labels |
| Day23.ReadLabels | src/day23.rs:120-130 | following the links from cup 1 writes every label after it, in circle order, until cup 1 returns |
| Day23.Part1 | src/day23.rs:115-131 | the output is the labels after cup 1 of the circle after the given number of moves |
| Day23.ProductAfter1 | src/day23.rs:136-139 | the product of the first two labels after cup 1 |
| Day23.Part2 | src/day23.rs:133-140 | after ten million moves, the product of the two labels after cup 1 |
| Day22.Parse | src/day22.rs:22-44 | the parsed decks are those the line-by-line reading of the input gives, or none where a card line is not a number |
| Day22.ParseLines | src/day22.rs:31-41 | the loop over the lines ends in the state the line-by-line reading gives, stopping at the first card line that is not a number |
| Day22.ParseLine | src/day22.rs:32-40 | a header line is skipped, the blank line switches to player 2, a card line appends its number to the current player's deck |
| Day22.ReadCards | src/day22.rs:35-39 | reading a deck's card lines appends the whole deck, in order, to the current player |
| Day22.ReadShowLines | src/day22.rs:31-41 | reading the two headed blocks gives back both decks, with the switch to player 2 made |
| Day22.ReadLinesFail | src/day22.rs:36-38 | once a card line fails to parse, no later line recovers the parse |
| Day22.ParseShow | src/day22.rs:22-44 | the input file written from two decks parses back to the same two decks |
| Day22.Reverse | src/day22.rs:55 | the reversed deck has the same length and reads the deck bottom up |
| Day22.WeightedSnoc | src/day22.rs:54-58 | adding a card at the top of the reversed deck adds that card times its position |
| Day22.ScoreCons | src/day22.rs:46-59 | a card on top of a deck of `k` cards adds `k + 1` times its value to the score |
| Day22.Score | src/day22.rs:52-58 | each card times its position counted from the bottom, summed; ScoreCons states it |
| Day22.WinnerScore | src/day22.rs:46-59 | `winner_score`: player 1's score unless that deck is empty, else player 2's |
| Day22.AwardConserves | src/day22.rs:66-72 | the two drawn cards go to the winner's bottom; no card is lost or made |
| Day22.RoundConserves | src/day22.rs:62-73 | a round keeps the multiset of all cards |
| Day22.RoundSizes | src/day22.rs:66-72 | the higher card's owner gains one card and the other player loses one |
| Day22.Round | src/day22.rs:62-73 | one round of `part_1`; RoundConserves and RoundSizes state it |
| Day22.CombatConserves | src/day22.rs:62-73 | any number of rounds keeps the multiset of all cards |
| Day22.CombatSplit | src/day22.rs:62-73 | playing `m` rounds and then `n` more is playing `m + n` rounds |
| Day22.Combat | src/day22.rs:62-73 | at most `n` rounds of `part_1`, stopping at an empty deck; CombatConserves and CombatSplit state it |
| Day22.WinnerHoldsAll | src/day22.rs:46-51 | when the game has ended, the winner's deck holds every card of both starting decks |
| Day22.Part1 | src/day22.rs:61-76 | the loop plays rounds until a deck is empty and returns the winner's score of the decks the round function reaches |
| Day22.GameWinner | src/day22.rs:88-117 | the returned flag says player 1 won exactly when player 1 ends with cards, and a game ends with an empty deck unless player 1 won by repetition |
| Day22.GameConserves | src/day22.rs:84-118 | a recursive game, sub-games included, keeps the multiset of all cards |
| Day22.GameFuel | src/day22.rs:84-118 | a game's result does not depend on how much more recursion depth is allowed once it ends |
| Day22.RoundWinnerFuel | src/day22.rs:97-106 | a round's winner does not depend on how much more recursion depth is allowed once it is decided |
| Day22.Game | src/day22.rs:84-118 | `game`: rounds until a deck empties or a deck repeats (player 1 wins), with sub-games on copies of the top cards; GameWinner and GameConserves state it |
| Day22.RoundWinner | src/day22.rs:97-106 | who wins a round: the sub-game when both players hold enough cards, else the higher card; RoundWinnerFuel states it |
| Day22.Deck.constructor | src/day22.rs:26-27 | a new deck holds the given cards |
| Day22.Deck.PopFront | src/day22.rs:94-95 | takes the top card and leaves the rest |
| Day22.Deck.PushBack | src/day22.rs:109-113 | puts a card at the bottom |
| Day22.Deck.Take | src/day22.rs:101-102 | a fresh copy of the top `k` cards, or of the whole deck when it holds fewer |
| Day22.PlayGame | src/day22.rs:84-118 | the loop with its two seen-sets leaves both decks as the recursive game puts them and returns its winner flag, returning early for player 1 on a repeated deck |
| Day22.PlayRound | src/day22.rs:94-114 | a round draws both top cards, decides the winner by a sub-game on copies when both players hold enough cards and by the higher card otherwise, and awards the two cards |
| Day22.Part2 | src/day22.rs:120-124 | the winner's score of the decks the recursive game ends with |
| Day21.StripParen | src/day21.rs:29 | `strip_suffix(')')` succeeds exactly when the text ends in `)` and then gives back what comes before it |
| Day21.Elems | src/day21.rs:28 | collecting the pieces into a `HashSet` keeps exactly the pieces that occur |
| Day21.SplitOnJoinOn | src/day21.rs:29 | splitting allergens joined with `", "` gives back the allergens when none holds a comma |
| Day21.ParseShowFood | src/day21.rs:26-31 | a food line written as its ingredients, ` (contains `, its comma-separated allergens and `)` parses back to that food |
| Day21.ParseFood | src/day21.rs:26-31 | one food line: ingredients before " (contains ", allergens before the final `)`, `None` where an `unwrap` panics; ParseShowFood is its round trip |
| Day21.ParseShowInput | src/day21.rs:21-33 | an input written one food line per line parses back to those foods, in order |
| Day21.Parse | src/day21.rs:21-33 | `parse`: one food per line; ParseShowInput is its round trip |
| Day21.AddAllergens | src/day21.rs:42-47 | an allergen met for the first time starts from the food's ingredients, a listed one is intersected with them, the others are untouched |
| Day21.CountIngredients | src/day21.rs:49-52 | each ingredient of the food gains one in the count map, new ones entering at one, the others untouched |
| Day21.CandidatesStep | src/day21.rs:41-47 | after one more food, the candidates of each listed allergen are exactly the ingredients common to all the foods that list it |
| Day21.CountsStep | src/day21.rs:49-52 | after one more food, each ingredient's count is the number of foods so far that contain it |
| Day21.Tally | src/day21.rs:41-53 | the keys of the candidate map are the listed allergens, each with the ingredients of every food that lists it; the counts are the numbers of foods containing each ingredient |
| Day21.CandidatesUnique | src/day21.rs:41-47 | the candidate map of a list of foods is determined: two maps that both describe the foods' candidates are equal |
| Day21.SettleInv | src/day21.rs:58-61 | settling an unsettled allergen on its one remaining candidate keeps the solving state explained: each candidate besides it was taken earlier |
| Day21.PruneInv | src/day21.rs:63-67 | striking taken ingredients out of an unsettled allergen's candidates keeps the solving state |
| Day21.Visit | src/day21.rs:57-69 | one visited allergen moves the state as `Step`: a settled one is skipped, one with a single candidate is settled on it and the ingredient taken, otherwise the taken ingredients leave its candidates; the settling stays explained |
| Day21.Pass | src/day21.rs:56-70 | one pass over the candidate map in its iteration order is `Sweep`, the visits in that order, and keeps the settling explained |
| Day21.TakenValues | src/day21.rs:60-61 | the taken ingredients are exactly the ingredients the settled allergens are settled on |
| Day21.Solve | src/day21.rs:55-71 | the loop's result is `Run` of the passes from the candidates (`None` when the passes run out); a result settles every allergen, each on its last candidate not taken before, the taken set being the settled ingredients |
| Day21.StepAgrees | src/day21.rs:57-69 | for an assignment m fitting the candidates, one visit keeps the state agreeing with m (settled as in m, taken set its image, m's ingredient still a candidate of every unsettled allergen) and undoes no settlement |
| Day21.SweepAgrees | src/day21.rs:56-70 | a whole pass keeps the agreement with m and undoes no settlement |
| Day21.RunAgrees | src/day21.rs:55-71 | from a state agreeing with m, the loop either runs out of passes or settles every allergen exactly as m, taking m's ingredients |
| Day21.Run | src/day21.rs:55-71 | the `while` loop from a state: passes until every allergen is settled, `None` when the passes run out; RunAgrees, RunCompletes and RunStuck state it |
| Day21.SolveAgrees | src/day21.rs:55-71 | for every fitting assignment m, in any iteration order and with any number of passes, the solution is absent or is m with its ingredients taken |
| Day21.TwoSweeps | src/day21.rs:55-71 | when m peels, two passes from an unfinished agreeing state settle at least one more allergen |
| Day21.RunCompletes | src/day21.rs:55-71 | when m peels, two passes per unsettled allergen finish the loop on m |
| Day21.SolveCompletes | src/day21.rs:55-71 | when m fits and peels, 2n passes for n allergens give exactly the solution m |
| Day21.SolveUnique | src/day21.rs:55-71 | when m is the only fitting assignment, 2n passes for n allergens give exactly the solution m |
| Day21.RunStuck | src/day21.rs:55-71 | a pass that changes nothing while some allergen is unsettled is the source's endless loop: no number of passes gives a solution |
| Day21.RunMore | src/day21.rs:55-71 | more passes do not change a loop that finishes |
| Day21.RunKeys | src/day21.rs:55-71 | a finished loop has settled exactly the allergens of the candidate map |
| Day21.MatchIngredients | src/day21.rs:35-74 | there is a result exactly when the loop over the foods' candidate map finishes; then it holds the count of every ingredient and the loop's solution, which matches the foods |
| Day21.OccurrencesPositive | src/day21.rs:49-52 | an ingredient of any food has a positive count |
| Day21.SafeSumStep | src/day21.rs:79-83 | one food more adds the number of its ingredients not taken to the sum of counts outside the taken set |
| Day21.SafeSum | src/day21.rs:79-83 | summing the counts of the ingredients outside the taken set equals counting, food by food, the ingredients not taken |
| Day21.SumSafe | src/day21.rs:79-83 | the filtered sum over the count map, in any iteration order, is the sum of the counts of the ingredients not taken |
| Day21.CountsSafe | src/day21.rs:76-84 | the sum over the ingredient counts outside the taken set is the number of appearances of ingredients without an allergen |
| Day21.Part1 | src/day21.rs:76-84 | there is a result exactly when the loop finishes; it is the number of appearances, over all foods, of the ingredients its solution does not take |
| Day21.BeforeIrreflexive | src/day21.rs:91 | no string sorts before itself |
| Day21.BeforeTransitive | src/day21.rs:91 | the string order used for sorting is transitive |
| Day21.BeforeTotal | src/day21.rs:91 | of two distinct strings exactly one sorts first |
| Day21.KeySortedCons | src/day21.rs:91 | a pair whose allergen sorts before the head of a sorted listing can go in front |
| Day21.InsertByKeyFront | src/day21.rs:91 | the head of a sorted listing stays in front of the insertion into its tail of a pair that sorts after it |
| Day21.InsertByKey | src/day21.rs:91 | inserting a pair with a new allergen into a sorted listing gives a sorted listing with the pair added |
| Day21.SortByKey | src/day21.rs:91 | `sort_unstable_by_key` on the allergen gives a permutation of the pairs sorted strictly by allergen |
| Day21.ListingHead | src/day21.rs:89-91 | the head of the sorted listing of a map holds its least allergen and the rest lists the remaining entries |
| Day21.ListingUnique | src/day21.rs:89-91 | a map has one sorted listing, whatever order its entries were collected in, so an unstable sort gives a determined result |
| Day21.SortedAllergens | src/day21.rs:89-91 | collecting the solved map into pairs and sorting them gives exactly its entries, strictly sorted by allergen |
| Day21.JoinSnoc | src/day21.rs:96-102 | appending one ingredient after a comma extends the joined list by it |
| Day21.Dangerous | src/day21.rs:93-104 | the loop writes the ingredients in order with a comma between neighbours and none at the end; an empty listing underflows `len() - 1` and fails |
| Day21.Part2 | src/day21.rs:86-105 | there is a result exactly when the loop finishes with some allergen; it is the ingredients of the solution, ordered by the alphabetical order of their allergens and joined by commas |
| Day20.RotatedPixels | src/day20.rs:43-55 | row `i` of the turned tile is column `n - 1 - i` of the tile: pixel (i, k) comes from (k, n - 1 - i) |
| Day20.Rotate | src/day20.rs:44-55 | the loop pushes column `n - 1 - len` while fewer than `n` rows are built, giving the anti-clockwise turn |
| Day20.RotateFour | src/day20.rs:43-55 | four turns of a square tile give it back |
| Day20.RotateTwice | src/day20.rs:43-55 | two turns are a half turn: pixel (i, k) comes from (n - 1 - i, n - 1 - k) |
| Day20.FlipTwice | src/day20.rs:62-71 | flipping twice gives back the tile |
| Day20.Flipped | src/day20.rs:63-71 | `flip_h`: every row reversed, as many rows; FlipTwice, FlipSquare and FlipCount state its properties |
| Day20.FlipSquare | src/day20.rs:62-71 | a flip keeps a tile square |
| Day20.CountCells | src/day20.rs:136-141 | the summed row counts are the number of set pixel positions |
| Day20.Count | src/day20.rs:136-141 | `count_set_pixels`: the set pixels of every row, summed; CountCells equates it with the number of set cells |
| Day20.FlipCount | src/day20.rs:62-71 | a flip keeps the number of set pixels |
| Day20.RotateCells | src/day20.rs:44-55 | the set positions of a turned tile are exactly those of the tile moved by the turn |
| Day20.RotateCount | src/day20.rs:44-55 | a turn keeps the number of set pixels |
| Day20.Edges | src/day20.rs:73-89 | the four edges exist exactly when the tile is non-empty, its first and last rows are as long as it is tall and every row reaches the last column; each has `n` pixels |
| Day20.SquareEdges | src/day20.rs:73-89 | on a square tile the edges are N reversed top row, W left column, S bottom row, E right column bottom to top |
| Day20.EdgesRotated | src/day20.rs:44-89 | a turn moves every edge one place on: the new N, W, S, E are the old E, N, W, S |
| Day20.EdgesFlipped | src/day20.rs:62-89 | a flip reverses every edge and swaps W with E |
| Day20.EdgesTurned | src/day20.rs:73-89 | after `k` turns the edges are the old ones moved `k` places on |
| Day20.TurnEdgesTop | src/day20.rs:101-105 | turning `(4 - i) mod 4` times brings the edge at index `i` to the top |
| Day20.OrientedTop | src/day20.rs:101-110 | after orienting, the top edge is the edge the caller named, reversed exactly when asked |
| Day20.Trimmed | src/day20.rs:91-99 | dropping the border leaves two fewer rows, each two pixels shorter, holding the interior pixels |
| Day20.TrimmedSquare | src/day20.rs:91-99 | an `n` by `n` tile becomes an `n - 2` by `n - 2` tile |
| Day20.Tile.Orient | src/day20.rs:101-110 | the loop turns the tile until `top` is a multiple of four, then flips it if asked |
| Day20.Tile.RemoveEdges | src/day20.rs:91-99 | popping the last row, removing the first, then the last and first pixel of every row leaves the trimmed tile |
| Day20.TileFilings | src/day20.rs:181-188 | one tile is filed eight times, under distinct ids, each under its edge read forwards or reversed |
| Day20.Filings | src/day20.rs:181-193 | the filings of all tiles: eight per tile, each an edge of a visited tile in the stated direction |
| Day20.Under | src/day20.rs:190-193 | the entry of a key lists exactly the ids filed under it |
| Day20.FilesPush | src/day20.rs:190-193 | pushing an id onto its key's entry keeps the map equal to the filings so far |
| Day20.FileAll | src/day20.rs:190-193 | the inner loop files all of one tile's eight readings |
| Day20.EdgeMap | src/day20.rs:178-197 | every key of the map is a filed edge and its entry is every id filed under it, in visiting order |
| Day20.LonelyAmongSnoc | src/day20.rs:202-214 | one more entry visited adds its id to the lonely ones exactly when it is alone |
| Day20.UniqueNote | src/day20.rs:208-213 | noting a lonely id keeps the tiles and indices in the result equal to the lonely ids seen |
| Day20.UniqueEdges | src/day20.rs:199-216 | a tile is in the result exactly when one of its edges is lonely, and its indices are exactly its lonely edges |
| Day20.LonelyFiles | src/day20.rs:199-216 | an entry holding one id is an edge filed once in all |
| Day20.FreeIndicesOfUnique | src/day20.rs:199-225 | a tile's entry holds exactly the indices of its edges matched by no other tile |
| Day20.CornersOfUnique | src/day20.rs:218-234 | the tiles with two free edges are exactly the tiles with two edges matched by no other edge |
| Day20.FreeAmongSnoc | src/day20.rs:218-225 | the tiles with the wanted count of free edges grow by one visited key exactly when it has that count |
| Day20.FreeProduct | src/day20.rs:218-234 | the product over the filtered tiles is the product of their numbers, each once |
| Day20.Part1 | src/day20.rs:227-234 | `part_1` is the product of the numbers of the corner tiles |
| Day20.RowHitsBlank | src/day20.rs:112-134 | a pattern with no set pixel matches at every offset of a row |
| Day20.HitsBlank | src/day20.rs:112-134 | a pattern with no set pixel matches at all `ys * xs` offsets |
| Day20.HitsBound | src/day20.rs:112-134 | no more matches than offsets searched |
| Day20.HitsGrow | src/day20.rs:112-134 | one more row and column of offsets finds at least one more row's matches |
| Day20.CountRow | src/day20.rs:116-130 | the inner loop counts the matching offsets of one row |
| Day20.CountHits | src/day20.rs:115-131 | the nested loops count the matching offsets |
| Day20.FindPatternAsWritten | src/day20.rs:112-134 | the loops as written count only the offsets below `H - h` and `W - w` |
| Day20.SelfMatchMissed | src/day20.rs:115-116 | a pattern searched in itself matches at (0, 0) but the loops as written find nothing |
| Day20.FindPattern | src/day20.rs:112-134 | counting every offset at which the pattern lies inside the picture |
| Day20.FindPatternCorrected | src/day20.rs:115-116 | counting every fitting offset finds the matches of the loops as written and those of the row they leave out |
| Day20.SelfMatchFound | src/day20.rs:115-116 | counting every fitting offset finds a pattern once in itself |
| Day20.MonstersAsWrittenFewer | src/day20.rs:112-134 | the search as written never finds more monsters than counting every fitting offset |
| Day20.SeaMonster | src/day20.rs:365-376 | the sea monster is three rows of twenty pixels |
| Day20.Most | src/day20.rs:378-387 | the running `max` is no less than every count and is one of them, or 0 when there are none |
| Day20.MostTurn | src/day20.rs:380-387 | one turn's two searches take the running maximum over its two counts |
| Day20.TurnFour | src/day20.rs:378-388 | after the four turns the picture is back as it was |
| Day20.SearchFlips | src/day20.rs:382-385 | the inner loop searches the picture and its flip with the chosen search, keeps the running maximum and leaves the picture unflipped |
| Day20.Roughness | src/day20.rs:362-391 | with every fitting offset searched: the set pixels less the most sea monsters found in any of the eight arrangements times the monster's pixels |
| Day20.Search | src/day20.rs:378-390 | the eight-arrangement loop with the chosen search gives the set pixels less the most monsters found in any arrangement times the monster's pixels |
| Day20.TallyFewer | src/day20.rs:378-388 | the best arrangement of the as-written search finds no more monsters than the best of the corrected one |
| Day20.RoughnessAsWritten | src/day20.rs:362-391 | as written: the same result over the as-written search, never less than the corrected roughness |
| Day17.NeighboursCount | src/day17.rs:76-95 | the four nested loops count exactly the active cells among the 80 positions one step away in each of x, y, z and w, the cell itself excluded |
| Day17.CountAtMost80 | src/day17.rs:76-95 | a cell has at most 80 active neighbours |
| Day17.FlatCountAtMost26 | src/day17.rs:76-95 | when every active cell and the cell itself lie at w = 0 (part 1), at most 26 neighbours can be active |
| Day17.CountIgnoresSelf | src/day17.rs:83-84 | the offset (0, 0, 0, 0) is skipped, so whether the cell itself is active never changes its count |
| Day17.NextActiveNear | src/day17.rs:122-124 | a cell that is active after a step has an active cell of the old grid next to it |
| Day17.NextCellsMember | src/day17.rs:110-124 | a position is active after a step iff it lies in the scanned region and has 3 active neighbours, or is active and has 2 |
| Day17.SpansGrow | src/day17.rs:126-133 | widening the min/max bounds by a new cell keeps them the tightest bounds, starting from (0, 0), around the cells |
| Day17.SpansUnique | src/day17.rs:98-101 | those bounds are determined by the cells |
| Day17.StepCell | src/day17.rs:118-134 | one iteration of the innermost loop inserts the cell exactly when it becomes active and keeps the bounds tight |
| Day17.StepRow | src/day17.rs:117-135 | the x-loop adds exactly the row's cells that become active |
| Day17.StepPlane | src/day17.rs:116-136 | the y-loop adds exactly the plane's cells that become active |
| Day17.StepCube | src/day17.rs:115-137 | the z-loop adds exactly the cube's cells that become active |
| Day17.Step | src/day17.rs:97-143 | `step` scans the old bounds widened by one (w fixed at 0 unless `dims_4`) and yields exactly the cells that become active there, with the tightest bounds around them and the origin |
| Day17.StepFlat | src/day17.rs:103-107 | without `dims_4` every new cell lies at w = 0 |
| Day17.RegionIrrelevant | src/day17.rs:110-113 | any bounds enclosing the active cells give the same next grid |
| Day17.RunSteps | src/day17.rs:145-149 | `run_steps` replaces the grid by its step `steps` times |
| Day17.RunLife | src/day17.rs:145-149 | starting from enclosing bounds, the cells after n steps are the n-fold rule applied to the initial cells, whatever the bounds |
| Day17.Part1 | src/day17.rs:152-155 | the number of cells active after six steps in three dimensions |
| Day17.Part2 | src/day17.rs:157-160 | the number of cells active after six steps in four dimensions |
| Day17.ActivesMember | src/day17.rs:24-34 | a position is collected iff it is (x, y, 0, 0) for a byte '#' at column x of line y |
| Day17.LastHasMaxY | src/day17.rs:24-36 | the last collected cell has the largest y, so its y is the upper y bound |
| Day17.MaxX | src/day17.rs:36 | the largest x among the cells, attained by one of them |
| Day17.ParseNone | src/day17.rs:36 | the parse fails (the source's `last().unwrap()` panics) iff no line holds a '#' |
| Day17.ParseCells | src/day17.rs:24-37 | the parsed grid's cells are exactly the '#' positions |
| Day17.ParseSpans | src/day17.rs:36-45 | with x bounded by the largest x, the parsed bounds are the tightest ones around the cells and the origin |
| Day17.ParseLines | src/day17.rs:20-45 | the grid read from the lines, x bounded by the largest x of any `#`; ParseNone, ParseCells and ParseSpans state it |
| Day17.Parse | src/day17.rs:20-45 | the corrected `parse`: ParseLines, with x bounded by the largest x of any `#`, over the input's lines; ParseLinesAsWritten keeps the source's bound |
| Day17.AsWrittenLosesCell | src/day17.rs:36-44 | taking the x bound from the last cell can leave cells outside the bounds, and the first step then misses a cell that becomes active |
| Day17.ParseLinesAsWritten | src/day17.rs:36-44 | `parse` as written: both bounds of the grid come from the last `#` read; AsWrittenLosesCell shows the cell it loses |
| Day18.MatchingParens | src/day18.rs:37-50 | the index of the first ')' that closes the depth opened before it; `None` where the source panics |
| Day18.FromStr | src/day18.rs:55-96 | the loop over the text yields `Parse`: numbers, `+`/`*` and nested groups in source order |
| Day18.ParseShow | src/day18.rs:55-96 | reading back a written expression gives the expression |
| Day18.Parse | src/day18.rs:55-96 | what `Expr::from_str` computes; FromStr meets it and ParseShow is its round trip |
| Day18.ParseInput | src/day18.rs:167-176 | `parse`: the last newline popped, one expression per line; ParseShowInput is its round trip |
| Day18.ParseShowInput | src/day18.rs:167-176 | expressions written one per line, each ended by a newline, read back when the last one is not empty |
| Day18.EvalToken | src/day18.rs:99-106 | a literal is its value and a group is evaluated by the same rule; an operator alone fails |
| Day18.Eval | src/day18.rs:118-139 | the loop computes `Strict`, taking tokens front to back |
| Day18.StrictCorrect | src/day18.rs:118-139 | a well-formed expression evaluates left to right with + and * at equal precedence |
| Day18.EvalAddToken | src/day18.rs:107-114 | a group is evaluated with + first, like its parent |
| Day18.EvalAddPrecedence | src/day18.rs:141-164 | the loop popping tokens from the end computes `Advanced` |
| Day18.AdvancedCorrect | src/day18.rs:141-164 | a well-formed expression evaluates to the product of the sums of its '*'-separated segments |
| Day18.Part1Correct | src/day18.rs:178-180 | part 1 is the sum of the left-to-right values |
| Day18.Part2Correct | src/day18.rs:182-184 | part 2 is the sum of the +-first values |
| Day18.Part1 | src/day18.rs:178-180 | `part_1`: the sum of `eval` over the expressions; Part1Correct states it |
| Day18.Part2 | src/day18.rs:182-184 | `part_2`: the sum of `eval_add_precedence` over the expressions; Part2Correct states it |
| Day18.FirstExampleStrict | src/day18.rs:192 | "1 + 2 * 3 + 4 * 5 + 6" evaluates to 71 |
| Day18.FirstExampleAdvanced | src/day18.rs:226-232 | the same expression with + first evaluates to 231 |
| Day19.ParseRule | src/day19.rs:29-48 | a rule starting with a quote is a literal byte other than '"' taken from the text; a choice needs a " \| " in the text; a series has one number per space-separated piece |
| Day19.ParseShowRule | src/day19.rs:29-48 | every literal, series and choice reads back from the way the puzzle writes it |
| Day19.MatchSeries | src/day19.rs:53-67 | the loop popping candidates into a new vector, once per rule of the series, computes `SeriesFrom` |
| Day19.Match | src/day19.rs:50-86 | `match_message`: the remainders of the message after each way rule `id` matches a prefix; `Panics` for a missing rule; MatchSound, MatchComplete and EmptyRemainderIffInLanguage state what they mean |
| Day19.SeriesFrom | src/day19.rs:53-67 | `match_series` from a list of candidates: one round per rule of the series, each candidate replaced by its remainders; MatchSeries states it |
| Day19.MatchSound | src/day19.rs:50-86 | every remainder `match_message` returns is a suffix of the message, and the prefix before it is derived by the rule |
| Day19.MatchComplete | src/day19.rs:50-86 | whenever matching finishes, every prefix the rule derives leaves its remainder among the results |
| Day19.MatchMore | src/day19.rs:50-86 | more fuel changes no finished result |
| Day19.DerivesDeeper | src/day19.rs:50-86 | a derivation within a depth is one within any larger depth |
| Day19.EmptyRemainderIffInLanguage | src/day19.rs:50-86 | when matching finishes, the empty remainder is among the results iff the whole message is in the rule's language |
| Day19.AsWrittenAtMost | src/day19.rs:116-129 | the last-remainder test and the some-remainder test finish together, and the first never counts more |
| Day19.CountAccepted | src/day19.rs:116-129 | the messages rule 0 accepts, by the last-remainder test or the some-remainder test; at most the number of messages |
| Day19.Part1AsWritten | src/day19.rs:116-120 | `part_1` as written, with the last-remainder test; Part1Language bounds it |
| Day19.Part1 | src/day19.rs:116-120 | `part_1` with the some-remainder test; Part1Language states its count |
| Day19.Part2AsWritten | src/day19.rs:122-129 | `part_2` as written, on the looping grammar; Part2Language bounds it |
| Day19.Part2 | src/day19.rs:122-129 | `part_2` with the some-remainder test; Part2Language states its count |
| Day19.Part1Language | src/day19.rs:116-129 | part 1 with the intended test counts exactly the messages rule 0 derives; as written it counts no more |
| Day19.Loop | src/day19.rs:123-124 | `part_2` sets rule 8 to `42 \| 42 8` and rule 11 to `42 31 \| 42 11 31` and leaves every other rule |
| Day19.Part2Language | src/day19.rs:122-129 | part 2 counts exactly the messages the looping grammar derives from rule 0; as written it counts no more |
| Day19.AsWrittenMissesMatch | src/day19.rs:118 | with `0: 1 1 \| 1` and `1: "a"`, "aa" is derived but its last remainder is "a", so the source counts 0 where 1 is meant |

## Left out

- Command-line selection of the day and part, opening the input file or standard input, reading it, and printing the answers: I/O. Each `solve` is represented by its parser and its two parts.
- All benchmark code.
- Machine integers (`u8`, `u16`, `u32`, `u64`, `usize`, `isize`, `i32`) are unbounded `int`/`nat`, and overflow is not modelled, with one exception: the `usize` left shifts of day 14's masks drop the top bit (Day14.Shl1). Underflows that panic are preconditions (below). The parsers check the ranges that decide acceptance: `i32` in day 1, `u8` in day 2 (Day02.ParseByte), `u64` in day 9 and `usize` in day 14 (Day14.ParseUsize).
- Byte strings (`as_bytes`, `Vec<u8>`) are strings of `char`. Day 2 takes a byte to be a `char` below 256. No encoding or Unicode handling is modelled.
- Text.Lines: `str::lines` is modelled for `\n` line ends only; Rust also strips a `\r` before the `\n`, which the model keeps as part of the line.
- Text.IsSpace: covers the ASCII white space characters only; Rust's `char::is_whitespace` also accepts the other Unicode white space characters.
- `HashMap`/`HashSet` iteration order is an `order` parameter listing every key once. This covers the day 16 and day 21 worklists, the day 20 edge map and corners, and the day 21 sums. The `BTreeSet` of day 1 is its ascending enumeration.
- Day01.Part2: the `itertools` combinations variant `solve_combinations` is not modelled. It depends on a foreign crate, and its tests read an input file.
- Day02.Part2: requires every policy's positions to lie in 1..=length of its password; the source's indexing panics otherwise.
- Day03.Part1: requires the visited rows to be non-empty (`% len` panics on an empty row). The same holds for Day03.Part2.
- Day05.Part2: requires `NoUnderflow`: no `current - 2` the scan computes is a `u16` underflow, the source's panic.
- Day06.Part1: requires every group to be non-empty: the group fold's `fold_first().unwrap()` in `get_group_answers` panics on an empty group (the union for part 1, the intersection for part 2). The same holds for Day06.Part2.
- Day07.Part1: requires some bag to hold shiny gold directly; the source's `unwrap` panics otherwise.
- Day07.Part2: takes a ghost `rank` witnessing `Ranked`: the rules have no cycle and every bag named inside a rule has a rule of its own. Otherwise the source's worklist requeues an unsettled bag forever. It also requires a rule for shiny gold, whose final `unwrap` panics otherwise.
- Day08.Part1: requires the program to loop; a program counter leaving the program panics in `step`.
- Day08.Part2: requires `TriedSafe`: every swap the loop tries, up to and including the first whose run finishes, runs without its program counter leaving the program. A crashing run panics in `step` (`get_mut(..).unwrap()`), and later swaps are never tried. RepairBeforeCrash shows a program with a crashing swap that Part2 still covers.
- Day10.Part2: requires a non-empty adapter list (`unwrap` of the largest). The count of arrangements is stated only when the chain is strictly increasing: distinct adapters, none rated 0 jolts (such an adapter repeats the outlet).
- Day11.Part1: the fixpoint loop is bounded by a ghost `bound` at which the map is stable; the source loops until it is. The same holds for Day11.Part2. A map that never settles is not modelled.
- Day12.Part1: requires every turn to be a multiple of 90 degrees (`from_angle` panics otherwise).
- Day12.Part2: requires every rotation to be 0, 90, 180 or 270 degrees (`unreachable!` otherwise).
- Day13.Part1: requires no bus id of 0 (`%` by zero panics). The same holds for Day13.Part2.
- Day13.Part2: requires a ghost `bound` within which every inner search loop stops (`Lines`). The source relies on pairwise coprime ids for this, and on other ids its loop may never end.
- Day14.Part1: requires every mask to hold only '0', '1' and 'X' (`unreachable!` otherwise). The same holds for Day14.Part2.
- Day15.Part1: requires a non-empty list of starting numbers; `input.len() - 1` underflows otherwise. The same holds for Day15.Part2.
- Day15: the concrete runs of 30,000,000 turns and the 2020-turn test answers (436, 1, 10, 27, 78, 438, 1836) are not evaluated. Only the first ten turns of the example game are (GameExample). Evaluating a literal game that long is far beyond the verifier's budget.
- Day16.Assign: `fuel` bounds the worklist's turns, and running out is `Endless`. The source loops forever when no rule settles, and panics when a rule loses all candidates. Any result is proved to be the unique fitting assignment when that exists (AssignAgrees, AssignUnique). Completion is proved only for assignments that can be peeled and with |rules|² turns (AssignCompletes).
- Day17.Part1: the example answers 112 and 848 are not evaluated. Six literal cycles over a four-dimensional set are beyond the verifier's budget. The same holds for Day17.Part2.
- Day18: only the first example expression (71 and 231) is evaluated. The other five expressions of the source's tests are not: 51, 26, 437, 12240 and 13632, with 51, 46, 1445, 669060 and 23340 for the `+`-first rule. That keeps proof time down; Eval and EvalAddPrecedence cover every well-formed row.
- Day19.Match: `fuel` bounds the nested rule lookups, standing for the source's recursion, which need not end on left-recursive rules; running out is `OutOfFuel`. Results are proved sound, and complete whenever the match finishes.
- Day19.Part1: the example counts 2 and 3, with 12 for part 2, are not evaluated. The literal grammars with many rules make this too costly.
- Day20: `solve_puzzle`, `search_for_edge` and the picture assembly of `part_2` are not modelled. They use `f32::sqrt` for the grid width and pick an arbitrary corner from `HashMap` order. The model starts from the assembled picture (Roughness).
- Day20: parsing the tiles (`parse`) is not modelled. The part 1 example 20899048083289 needs only parsing, `edge_map`, `unique_edges` and the product, but parsing is not modelled and evaluating nine literal 10×10 tiles is too costly. The part 2 example 273 also needs the assembly above.
- Day20.Tile.Orient: `top` is a `nat`, so the `u8` wrap of the source's `EdgeIdx` arithmetic is not modelled.
- Day20.FindPattern: requires the pattern to fit the picture; the source's `len() - len()` underflows otherwise. Day20.Roughness requires a square picture of at least 20 rows, and the result is an `int` where the source's `usize` subtraction could underflow. The rotations require square (`Square`) or wide (`Wide`) tiles, which is what the source's indexing needs.
- Day20.Part1: stated for the visiting order of the tiles. That the product does not depend on this order is not proved, and neither is which direction of an edge `unique_edges` keeps. That the sea monster has 15 pixels is not evaluated.
- Day21.Solve: `fuel` bounds the passes of the loop, and running out gives `None`. The source loops forever when a pass settles nothing (RunStuck). Any result is the unique fitting assignment when one exists (SolveAgrees), and 2·|allergens| passes reach it when it can be peeled or is unique (SolveCompletes, SolveUnique). The source does not keep the settling injective: two allergens left with the same single ingredient both take it, so Solves states the settling order (`Explains`) rather than injectivity.
- Day21.Part2: an empty solution makes the source's `len() - 1` underflow; it is `None`.
- Day21.Part1: the examples 5 and "mxmxvkd,sqjhc,fvjkl" are not restated. Evaluating the candidate sets of the literal foods is too costly. The same holds for Day21.Part2.
- Day22.Part1: requires a ghost `bound` within which the game ends; the source loops forever on a game that never ends.
- Day22.Part2: requires the recursive game to finish within a ghost `fuel`.
- Day22: the seen-deck sets are sets of decks. The source's `DefaultHasher` hashes are foreign code that assumes no collisions. The examples 306 and 291 are not evaluated, because literal rounds are too costly.
- Day23.Playable: the circle requires a permutation of a run of labels from at least 1, with at least five labels. With four labels or fewer the destination search of `step` never ends, or links the current cup to itself. Label 0 makes `dest - 1` underflow.
- Day23: the 10,000,000-move run and the examples "92658374", "67384529" and 149245887792 are not evaluated. Evaluating a literal circle is too costly; one move and its invariants are proved.
- Day24.Part1: the examples 10 and 2208 are not evaluated. Walking twenty literal lines and a hundred days of the automaton is too costly. The same holds for Day24.Part2.
- Day25.FindLoopSize: requires a ghost `bound` at which the public key appears; the source loops forever otherwise.
- Day25.FindKey: requires a loop size of at least 1; the source's counter underflows at 0.
- Day25: `part_2` is `todo!()` in the source and is not modelled.
- Day04.Part1: the examples 2, 0 and 4 are not evaluated. The literal batches of several passports are too costly to parse in the verifier. The same holds for Day04.Part2.
- Day07: the examples 4 and 32 are not evaluated. The holder search and bag totals over the literal rules (sums over sets) are too costly.
- Day09.SortedVec: `find` and `insert` as written do not keep the vector sorted (see Findings). For them, only the soundness of `contains` and the multiset effect of `insert` are proved. Sortedness is proved for the intended versions FindSorted, ContainsSorted and InsertSorted.
- Day11.Part1: the examples 37 and 26 are not evaluated, because literal grids iterated to their fixpoint are too costly. The same holds for Day11.Part2.
- Day13.Part2: for the example 1068781, only the congruences are checked (ExamplePart2); that no smaller time satisfies them is not evaluated.

## Findings

| source | as written | input that shows it | evidently intended | confidence | as-written member | corrected member |
|---|---|---|---|---|---|---|
| src/day09.rs:49-67 | `SortedVec::find` moves `max` down when the probed element is smaller than `x`, so the vector is not kept in ascending order and `contains` can miss an element; `is_valid` then rejects a number that is a sum | preamble 5, 3, 4 (size 3) and the number 7 = 3 + 4: `is_valid` returns false, so `part_1` on the cipher 5, 3, 4, 7 reports 7 | a number is valid when two distinct earlier preamble numbers sum to it | not executed | Day09.AsWrittenMisses, Day09.AsWrittenReportsSum | Day09.CipherCheck.IsValid, Day09.Part1Correct |
| src/day17.rs:36-43 | `parse` takes `max_x` from the last `#` read, not the largest x, so the x bounds can leave out active cells, and a cycle does not examine them | the lines `..##`, `..##`, `#`: the x bound is 0..=0, and the cell (2, 0, 0) stays active in a correct cycle but is lost | the bounds enclose every active cell | not executed | Day17.AsWrittenLosesCell | Day17.ParseSpans |
| src/day19.rs:116-129 | `part_1` and `part_2` test only the last remainder popped from rule 0's results for emptiness | rules `0: 1 1 \| 1`, `1: "a"` and the message "aa": the remainders are "", "a", so the message is not counted | a message counts when some remainder is empty | not executed | Day19.AsWrittenMissesMatch | Day19.Part1Language |
| src/day20.rs:112-134 | `find_pattern`'s offset ranges `0..H - h` and `0..W - w` leave out the last row and column of offsets | a pattern searched in itself: its one match at (0, 0) is not counted, and the count is 0 | every offset at which the pattern fits is searched | not executed | Day20.SelfMatchMissed, Day20.RoughnessAsWritten | Day20.SelfMatchFound, Day20.Roughness |
