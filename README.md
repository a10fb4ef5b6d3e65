# Advent of Code 2023 solutions, modelled and proved in Dafny

This project models the puzzle logic of a set of Python solutions to Advent of
Code 2023: days 1, 2, 3, 4, 5, 8, 14 and 17. Each solution reads its puzzle
input as lines of text, parses them, and computes one number per part. The
model keeps the parsing and the computation. File reading, the solver base
class and the entry points are left out.

One module per source file:

| module | file | source | what it models |
|---|---|---|---|
| `Wrappers` | `wrappers.dfy` | — | `Option`, and a list comprehension whose element conversion can fail |
| `Text` | `text.dfy` | — | Python's `int`, `str.split`, `removeprefix`, `removesuffix`, `replace` and `str` of an integer |
| `Trebuchet` | `day01_trebuchet.dfy` | `day_1/solution.py` | the first and last digit of a line, written as a digit or (part 2) as a word, and the calibration sums |
| `CubeConundrum` | `day02_cube_conundrum.dfy` | `day_2/solution.py` | reading games of coloured cube draws, which games the bag allows, and the power of the smallest bag |
| `GearRatios` | `day03_gear_ratios.dfy` | `day_3/solution.py` | finding the numbers and the `*` cells of the schematic, part numbers next to a symbol, and gear ratios |
| `Scratchcards` | `day04_scratchcards.dfy` | `day_4/solution.py` | reading cards, counting winning numbers, the doubling points and the cascade of won copies |
| `SeedMaps` | `day05_seed_maps.dfy` | `day_5/solution.py` | the point-wise almanac: rules, stages, seeds, seed pairs and the lowest location |
| `Ranges` | `day05_ranges.dfy` | `day_5/solution_part_2.py` | inclusive ranges, `try_combine_with`, and the sorted, merged range list (`SortedRangeList`, a class) |
| `RangeMapping` | `day05_range_mapper.dfy` | `day_5/solution_part_2.py` | mapping whole ranges through a stage's sorted rules, and the part-2 pipeline |
| `RangesAsWritten` | `day05_as_written.dfy` | `day_5/solution_part_2.py` | the day 5 part-2 operations exactly as written, where they differ from their intent (see Findings) |
| `RangeExamples` | `day05_examples.dfy` | `day_5/test_solution_part_2.py` | the expected results of the day 5 test cases, worked out on the model |
| `HauntedWasteland` | `day08_haunted_wasteland.dfy` | `day_8/solution.py` | the cycling instruction iterator (a class), the node network, the walk to `ZZZ` and the part-2 combination |
| `LeastCommonMultiple` | `day08_lcm.dfy` | `day_8/solution.py` | Euclid's greatest common divisor and the least common multiple of a set of step counts |
| `ParabolicReflectorDish` | `day14_parabolic_reflector_dish.dfy` | `day_14/solution.py` | rolling round rocks north on a 2-D array, the load on the north beams, spin cycles and the cycle-number arithmetic |
| `ClumsyCrucible` | `day17_clumsy_crucible.dfy` | `day_17/solution.py` | directions, moves, search states and their keys, and one expansion step of the shortest-path search |

Code that changes state in the source is modelled imperatively:
- `SortedRangeList.add` is a method of a class over a sequence field.
- `RangeMapper.map` is a two-cursor loop.
- `DirectionIterator.next` updates the iterator's index.
- The day 14 field is an `array2<char>` changed in place.
- The day 4 copy counts are an array updated in a nested loop.
- The day 3 scans are while loops.
- Day 17's successor loop writes a map of visited states.

Each such method is proved against a function that states what it computes.
The properties the puzzles rely on are lemmas about those functions.

Day 5 part 2 as written does not do what its tests expect (see Findings). There
the main modules (`Ranges`, `RangeMapping`) follow the intent that the tests in
`day_5/test_solution_part_2.py` show, and `RangesAsWritten` keeps the code as
written, with inputs on which it goes wrong. There is one further point on day 5. The total length of the
mapped ranges equals that of the source ranges only before merging
(`RangeMapping.AllPiecesLength`). Merging overlapping images can shorten the
result, as `RangeExamples.AcrossTwoRules` shows: 19 integers map onto 14.

## Model

| member | source | states |
|---|---|---|
| Text.DigitValue | day_1/solution.py:17-22 | a decimal digit character has a value below ten |
| Text.DigitChar | day_1/solution.py:17-22 | the digit character of a value below ten is a digit whose value is that number |
| Text.ShowNat | day_5/solution_part_2.py:80-83 | a natural number is written as a non-empty string of digits that reads back as the number, one character long exactly when the number is below ten |
| Text.ParseInt | day_2/solution.py:24 | `int` succeeds exactly on a non-empty run of digits, optionally after one `-`, and yields that value with its sign |
| Text.ParseShowInt | day_4/solution.py:38 | reading back the decimal text of any integer gives the integer, and that text holds no space and no `-` after the first place |
| Text.ShowIntChars | day_4/solution.py:38 | the decimal text of an integer holds only digits and `-` |
| Text.RemovePrefix | day_2/solution.py:22 | `removeprefix` drops the prefix when the string starts with it and otherwise returns the string unchanged |
| Text.RemoveSuffix | day_4/solution.py:36 | `removesuffix` drops the suffix when the string ends with it and otherwise returns the string unchanged |
| Text.RemoveFront | day_4/solution.py:36 | removing a prefix that was put in front gives back the rest |
| Text.RemoveBack | day_4/solution.py:36 | removing a suffix that was put behind gives back the rest |
| Text.JoinAvoids | day_2/solution.py:20 | a character found in no part and not in the separator is not in the joined string |
| Text.JoinEnd | day_2/solution.py:20 | the joined string ends with the last part |
| Text.SplitOn | day_2/solution.py:20 | `split` gives at least one part, and joining the parts with the separator gives back the string |
| Text.SplitOnWhole | day_2/solution.py:23 | a string that does not hold the separator's first character splits into itself alone |
| Text.SplitOnMissing | day_2/solution.py:23 | a string that misses any one character of the separator splits into itself alone |
| Text.SplitOnFirst | day_2/solution.py:48 | a string cut at its first separator splits into the part before it followed by the split of the rest |
| Text.SplitOnJoin | day_2/solution.py:20 | splitting parts joined with a separator whose first character none holds gives back the parts |
| Text.ReplaceFront | day_4/solution.py:36 | `replace` turns a leading occurrence of the pattern into the replacement and goes on with the rest |
| Text.ReplaceKeepsFirst | day_4/solution.py:36 | when the string does not start with the pattern, `replace` keeps the first character |
| Text.ReplaceAfter | day_4/solution.py:36 | a front part that does not hold the pattern's first character is kept as it is |
| Text.ParseInts | day_4/solution.py:38 | converting a list of strings succeeds exactly when every string is an integer, and then gives each one's value in place |
| Text.ShowInts | day_5/solution.py:166-168 | the texts of a list of integers are each integer's decimal text, in order |
| Text.ParseShowInts | day_5/solution.py:166-168 | converting the texts of a list of integers gives back the list |
| Text.ParseSpaceSeparated | day_5/solution.py:166-168 | splitting the space-separated text of a non-empty list of integers at spaces and converting each part gives back the list |
| Wrappers.MapOption | day_5/solution.py:168 | a conversion of every element succeeds exactly when each element's conversion does, and then holds each element's value in place |
| Wrappers.MapOptionAll | day_5/solution.py:168 | when every element converts to the matching value, the whole conversion gives that list |
| Trebuchet.WordFrom | day_1/solution.py:28-33 | the first word of the table, in key order from index `k`, that the text starts with; nothing when no word matches |
| Trebuchet.WordPrefixUnique | day_1/solution.py:3-14 | at most one word of the table starts any text, so the key order of the table cannot change the result |
| Trebuchet.TryParseDigit | day_1/solution.py:24-33 | a digit character parses as its value; otherwise only a table word starting at `index` parses, as its digit; results are below 10 |
| Trebuchet.TryParseWord | day_1/solution.py:28-32 | a spelled-out digit followed by anything parses as that digit |
| Trebuchet.FirstDigitIndex | day_1/solution.py:45-49 | the index of the first digit character at or after `i`, with no digit character before it; nothing when there is none |
| Trebuchet.Reverse | day_1/solution.py:66-67 | the same length, with character `i` taken from position `len - 1 - i` |
| Trebuchet.LastDigitIsLastDigitChar | day_1/solution.py:70-72 | the first digit of the reversed text exists exactly when the text holds a digit character, and is the value of the last one |
| Trebuchet.FirstParsedIndex | day_1/solution.py:52-56 | the first index at or after `i` where `try_parse_digit` succeeds, with failures everywhere before it; nothing when it never succeeds |
| Trebuchet.LastParsedIndex | day_1/solution.py:59-63 | the largest index below `n` where `try_parse_digit` succeeds, with failures at every index above it |
| Trebuchet.LastParsedSkip | day_1/solution.py:59-63 | indices where nothing parses do not change where the downward scan stops |
| Trebuchet.PartsAgreeWithoutWords | day_1/solution.py:45-63 | a line with a digit character has a part-2 first and last digit; on a line without spelled-out digits both parts read the same digits |
| Trebuchet.FirstAgree | day_1/solution.py:45-56 | when exactly the digit characters parse, the part-2 first digit is the part-1 first digit |
| Trebuchet.LastAgree | day_1/solution.py:59-72 | when exactly the digit characters parse, the part-2 last digit is the part-1 last digit |
| Trebuchet.LineValue | day_1/solution.py:81 | `10*first + last` is a number up to 99 whose tens digit is the first digit and whose units digit is the last |
| Trebuchet.CalibrationSum | day_1/solution.py:75-83 | defined exactly when every line has a digit character (otherwise the source fails adding `None`); at most 99 per line |
| Trebuchet.CalibrationSum2 | day_1/solution.py:86-94 | defined exactly when every line has something `try_parse_digit` accepts; at most 99 per line |
| Trebuchet.NoParseAt | day_1/solution.py:24-33 | a non-digit position closer than three letters to the end, or whose letter starts no word, does not parse |
| Trebuchet.ParseWordAt | day_1/solution.py:28-32 | a word of the table at index `i` parses as its digit |
| Trebuchet.TwoOneNineFirst | day_1/solution.py:52-56 | in "two1nine" the first digit is the word "two" |
| Trebuchet.TwoOneNineLast | day_1/solution.py:59-63 | in "two1nine" the last digit is the word "nine", found after the digit 1 |
| Trebuchet.EightTwoThreeFirst | day_1/solution.py:52-56 | "eightwothree" starts with "eight", although its last letter also begins "two" |
| Trebuchet.EightTwoThreeTail | day_1/solution.py:24-33 | nothing parses in the last four letters of "eightwothree" |
| Trebuchet.EightTwoThreeLast | day_1/solution.py:59-63 | the last digit of "eightwothree" is the word "three" |
| CubeConundrum.DrawnFromOrder | day_2/solution.py:12-15 | "can be drawn from" is reflexive, transitive and antisymmetric: an order on cube sets |
| CubeConundrum.SetColour | day_2/solution.py:25 | naming `red`, `green` or `blue` replaces that count and keeps the others; any other name leaves the three counts as they were |
| CubeConundrum.FromLinePart | day_2/solution.py:18-26 | the loop over the comma-separated items yields exactly the draw the item-by-item reading defines, or fails where `split(" ")` or `int` would raise |
| CubeConundrum.UnnamedColoursStay | day_2/solution.py:19-25 | a colour no item names keeps its starting count of 0 |
| CubeConundrum.LastItemWins | day_2/solution.py:21-25 | when a colour is named twice in one draw, the later item wins |
| CubeConundrum.ReadItemText | day_2/solution.py:22-24 | an item written as a space, a number and a colour reads back as that number and colour |
| CubeConundrum.ApplyThree | day_2/solution.py:19-25 | the three items red, green, blue of a draw rebuild that draw |
| CubeConundrum.ReadDrawJoin | day_2/solution.py:20-25 | items joined by commas read back item by item |
| CubeConundrum.ReadDrawText | day_2/solution.py:18-29 | a draw written as "n red, n green, n blue" reads back as itself and contains no `;` or `:` |
| CubeConundrum.DrawTexts | day_2/solution.py:50-51 | the text of each draw, in order |
| CubeConundrum.FromLine | day_2/solution.py:47-51 | a parsed game always has at least one draw |
| CubeConundrum.GameHead | day_2/solution.py:48-49 | "Game " followed by a number splits on the space into exactly the word and the number |
| CubeConundrum.FromLineText | day_2/solution.py:47-51 | a game written as "Game id: draw; draw; ..." reads back as the same game |
| CubeConundrum.Max | day_2/solution.py:41-43 | `max` of a non-empty list is one of its elements and at least every element |
| CubeConundrum.Reds | day_2/solution.py:41 | the red count of every draw, in order |
| CubeConundrum.Greens | day_2/solution.py:42 | the green count of every draw, in order |
| CubeConundrum.Blues | day_2/solution.py:43 | the blue count of every draw, in order |
| CubeConundrum.SmallestBagIsLeast | day_2/solution.py:37-44 | the bag of per-colour maxima makes the game possible, and a bag makes the game possible exactly when it holds at least that bag |
| CubeConundrum.ComputePower | day_2/solution.py:40-44 | the power exists exactly when the game has a draw (`max` of an empty list raises) |
| CubeConundrum.PowerNonNegative | day_2/solution.py:40-44 | with non-negative counts the power is non-negative |
| CubeConundrum.PossibleIndices | day_2/solution.py:56-60 | the positions of the possible games, in increasing order: every position listed holds a possible game, and every possible game's position is listed |
| CubeConundrum.PossibleIdsFrom | day_2/solution.py:56-60 | from a given game on, entry `k` of the ids is the id of the `k`-th possible game |
| CubeConundrum.PossibleIds | day_2/solution.py:56-60 | the ids of the possible games, in game order and once per possible game: entry `k` is the id of the `k`-th possible game, so the part-1 sum adds each possible game's id exactly once |
| CubeConundrum.Powers | day_2/solution.py:62-65 | the power of every game, in order |
| CubeConundrum.ExampleVerdicts | day_2/solution.py:56-59 | with the 12/13/14 bag, games 1, 2 and 5 of the puzzle example are possible and games 3 and 4 are not |
| CubeConundrum.ExamplePart1 | day_2/solution.py:56-60 | part 1 of the puzzle example keeps ids 1, 2, 5 and sums to 8 |
| GearRatios.InOrderUnique | day_3/solution.py:86-125 | two lists strictly ordered by row then column that hold the same elements are equal, so the scan order fixes the lists |
| GearRatios.RunDeterminedByStart | day_3/solution.py:96-112 | a maximal run of digits is fixed by its row and start column |
| GearRatios.RunsApart | day_3/solution.py:98-113 | two numbers of the same row found by the scan are separated by at least one non-digit |
| GearRatios.NumberListUnique | day_3/solution.py:86-115 | there is only one list of numbers satisfying the scan's description |
| GearRatios.ScanRun | day_3/solution.py:96-114 | the inner loop stops at the first non-digit or the row end after the start, and `10 * number + value` accumulates the decimal value of the digits passed |
| GearRatios.GetNumbers | day_3/solution.py:86-115 | the result holds every maximal run of digits with its value, row and columns, each one once, in row-major order |
| GearRatios.AddRun | day_3/solution.py:105-112 | appending the run just scanned keeps the list sound, complete up to the new column and in order |
| GearRatios.GetStars | day_3/solution.py:117-125 | the result holds every `*` cell, once each, in row-major order |
| GearRatios.StarListUnique | day_3/solution.py:117-125 | there is only one list of stars satisfying that description |
| GearRatios.SymbolInRow | day_3/solution.py:48-51 | whether some cell of the row between the columns, inside the grid, holds a symbol (neither digit nor `.`) |
| GearRatios.TouchesSymbol | day_3/solution.py:46-52 | true exactly when a cell of the 3-row frame around the number, clipped to the grid, holds a symbol |
| GearRatios.TouchedByStar | day_3/solution.py:46-83 | a number touched by a star touches a symbol |
| GearRatios.TouchingIndices | day_3/solution.py:64 | the increasing list of exactly the indices of numbers the star touches |
| GearRatios.GearRatioExactlyTwo | day_3/solution.py:63-72 | a star has a gear ratio exactly when exactly two numbers touch it, and the ratio is the product of their values |
| GearRatios.OnlyTouchingIndices | day_3/solution.py:64-67 | when only numbers `i < j` touch the star, the filtered list is those two, in that order |
| GearRatios.PartIndices | day_3/solution.py:23 | the positions of the numbers that touch a symbol, in increasing order: every position listed holds such a number, and every such number's position is listed |
| GearRatios.PartNumbersFrom | day_3/solution.py:23 | from a given position on, entry `k` of the kept numbers is the `k`-th number that touches a symbol |
| GearRatios.PartNumbers | day_3/solution.py:23-24 | the numbers that touch a symbol, in list order and once per place: entry `k` is the `k`-th touching number, so the part-1 sum adds each part number exactly once |
| GearRatios.SolvePart1 | day_3/solution.py:20-24 | the sum of the values of the numbers touching a symbol, for the one number list of the grid |
| GearRatios.SolvePart2 | day_3/solution.py:9-18 | the sum of the gear ratios over the one star list and number list of the grid |
| GearRatios.GearSumStep | day_3/solution.py:14-17 | each star adds its gear ratio when it has one and nothing otherwise |
| GearRatios.GearSumOfLists | day_3/solution.py:9-18 | the gear sum does not depend on which description-satisfying lists are used |
| Scratchcards.ReplaceField | day_4/solution.py:36 | collapsing `"  "` to `" "` turns a right-aligned one-digit field into a single space and the number |
| Scratchcards.CollapseFields | day_4/solution.py:36 | collapsing double spaces in a row of aligned number fields leaves one space before each number |
| Scratchcards.ReadNumbersText | day_4/solution.py:34-39 | a row of aligned number fields, optionally followed by a space, reads back as the numbers its fields hold |
| Scratchcards.Trim | day_4/solution.py:36 | `removeprefix(" ")` and `removesuffix(" ")` strip the single leading and trailing space |
| Scratchcards.CardTextSplits | day_4/solution.py:27-28 | a card line splits on `:` into the header and the numbers, and the numbers split on `|` into the two lists |
| Scratchcards.CardFromText | day_4/solution.py:25-32 | a card line written from number texts reads back as the card of those numbers |
| Scratchcards.CardLineRoundTrip | day_4/solution.py:25-39 | any card with non-empty lists, written as a line in the puzzle's layout, reads back as itself |
| Scratchcards.Overlapping | day_4/solution.py:21-23 | the kept numbers are among both lists; none is kept exactly when no number of mine wins, all exactly when every one wins |
| Scratchcards.Points | day_4/solution.py:15-19 | a card scores nothing exactly when none of my numbers wins |
| Scratchcards.OverlappingCount | day_4/solution.py:21-23 | each of my numbers that wins is kept as often as it occurs among mine, and no other number is kept, so the count is the number of my numbers, with repeats, that win |
| Scratchcards.PointsNoWin | day_4/solution.py:15-23 | one more number of mine that does not win leaves the points unchanged |
| Scratchcards.PointsDouble | day_4/solution.py:15-19 | one more winning number scores 1 on a card scoring nothing and doubles any other score |
| Scratchcards.PointsBound | day_4/solution.py:15-19 | a card scores at most 2 to the power of (my count − 1) |
| Scratchcards.Pow2Monotone | day_4/solution.py:18 | powers of two grow with the exponent |
| Scratchcards.SolvePart1 | day_4/solution.py:44-47 | the total exists exactly when every line reads as a card |
| Scratchcards.Matches | day_4/solution.py:53 | the number of matches of every card, in order |
| Scratchcards.InflowSettled | day_4/solution.py:52-55 | a card receives copies only from cards before it: processing later cards does not change its count |
| Scratchcards.CopyCounts | day_4/solution.py:50-55 | fails exactly when a card wins copies past the end of the table (an `IndexError` in the source); otherwise every entry is the recursive copy count of its card |
| Scratchcards.CopiesSettled | day_4/solution.py:52-55 | once every card is processed, each entry is the card's copy count |
| Scratchcards.AddCopies | day_4/solution.py:54-55 | the inner loop adds card `i`'s copies to each of the next `count` cards and changes nothing else; it fails exactly when that runs past the end |
| Scratchcards.InflowAdvance | day_4/solution.py:52-55 | one pass of the outer loop keeps the table equal to 1 plus the copies received from the cards processed so far |
| Scratchcards.InflowStep | day_4/solution.py:54-55 | card `i` adds its copies to exactly the next `m[i]` cards |
| Scratchcards.SumAtLeastLength | day_4/solution.py:51 | with every count at least 1, the total is at least the number of cards |
| Scratchcards.AllCopies | day_4/solution.py:51-55 | every card ends with at least the one original copy |
| Scratchcards.SolvePart2 | day_4/solution.py:49-56 | fails when a line does not read or a card wins past the end; otherwise the sum of all copy counts, which is at least the number of cards |
| Scratchcards.ExampleCopies | day_4/solution.py:49-56 | the puzzle example's match counts 4, 2, 2, 1, 0, 0 give copies 1, 2, 4, 8, 14, 1 and a total of 30 |
| SeedMaps.TryGetDestination | day_5/solution.py:17-22 | a result exists exactly when the rule covers the integer, and the integer keeps its offset from the rule's start |
| SeedMaps.DestinationImage | day_5/solution.py:17-22 | the integers a rule produces are exactly its destination range, each from a single source integer |
| SeedMaps.TryGetDestinationRange | day_5/solution.py:24-33 | `None` exactly when the source range misses the rule; endpoints that are `None` exactly for a rule of length at most 0 that the guard lets through; otherwise the mapped ends of the overlap |
| SeedMaps.DestinationRangeImage | day_5/solution.py:24-33 | a mapped range covers exactly the images of the overlap of source range and rule, and is as long as the overlap |
| SeedMaps.FromLineShow | day_5/solution.py:35-42 | a rule written as "destination source length" reads back as itself |
| SeedMaps.ParseRangeMaps | day_5/solution.py:125 | defined exactly when every rule line parses, with one rule per line, in order |
| SeedMaps.MapperFromLinesShow | day_5/solution.py:122-125 | any header line followed by one line per rule reads back as those rules: the header is dropped |
| SeedMaps.MappersFromBlocks | day_5/solution.py:150-156 | one stage per block, in order, defined exactly when every block parses |
| SeedMaps.FindDestination | day_5/solution.py:106-111 | the first rule in list order that covers the integer shifts it; with none the integer maps to itself |
| SeedMaps.LocationOfConcat | day_5/solution.py:158-162 | running two lists of stages one after the other is running their concatenation |
| SeedMaps.FindLocation | day_5/solution.py:158-162 | the loop returns the seed pushed through every stage in order |
| SeedMaps.LowestLocation | day_5/solution.py:130-136 | defined exactly when there is a seed (`min` of nothing raises); it is the location of one seed and at most that of every seed |
| SeedMaps.GetSeedsShow | day_5/solution.py:164-168 | a seed line "name: n n n" whose name has no colon reads back as its integers |
| SeedMaps.SeedRangesOfAt | day_5/solution.py:180-188 | pair `k` of the numbers becomes range `k`, from start to start + length − 1 |
| SeedMaps.ExpandCover | day_5/solution.py:170-178 | the part-2 seeds are exactly the integers inside the seed ranges |
| SeedMaps.ExpandLength | day_5/solution.py:170-178 | the part-2 seed count is the sum of the positive pair lengths |
| SeedMaps.ExpandPairs | day_5/solution.py:173-178 | the loop fails exactly on an odd count of numbers (a start with no length: `IndexError`) and otherwise expands the pairs in order |
| SeedMaps.GetSeedsPart2 | day_5/solution.py:170-178 | fails exactly when the seed line does not parse or holds an odd count of numbers; otherwise the expanded pairs |
| SeedMaps.PairRanges | day_5/solution.py:183-188 | the loop fails exactly on an odd count of numbers and otherwise builds one range per pair, in order |
| SeedMaps.GetSeedRanges | day_5/solution.py:180-188 | fails exactly when the seed line does not parse or holds an odd count of numbers; otherwise one range per pair |
| Ranges.MakeRange | day_5/solution_part_2.py:11-19 | constructing a range succeeds exactly when `start <= end` (otherwise `ValueError`), with the given endpoints |
| Ranges.TryCombine | day_5/solution_part_2.py:21-28 | `None` exactly when a gap of at least one integer separates the ranges; otherwise a range covering exactly the integers of both |
| Ranges.TryCombineSymmetric | day_5/solution_part_2.py:21-28 | combining does not depend on which range is the receiver |
| Ranges.InsertCover | day_5/solution_part_2.py:38-56 | adding covers exactly the integers covered before and those of the new range |
| Ranges.InsertCanonical | day_5/solution_part_2.py:34-56 | adding keeps the list sorted by start with neighbours neither overlapping nor touching |
| Ranges.InsertAppends | day_5/solution_part_2.py:40-44 | a range that no existing range reaches (`end + 1 >= start`) is appended at the end |
| Ranges.InsertSkipsPrefix | day_5/solution_part_2.py:40-41 | ranges ending more than one below the new range stay in front of it, untouched |
| Ranges.CanonicalUnique | day_5/solution_part_2.py:34-36 | two sorted, non-touching lists covering the same integers are equal |
| Ranges.InsertIdempotent | day_5/solution_part_2.py:38-56 | adding the same range twice gives the list of adding it once |
| Ranges.InsertCommutes | day_5/solution_part_2.py:38-56 | two additions commute |
| Ranges.InsertAllCover | day_5/solution_part_2.py:132-139 | adding ranges one by one to an empty list covers exactly their union, as a sorted, non-touching list |
| Ranges.InsertAllPermutation | day_5/solution_part_2.py:132-139 | the order in which ranges are added does not matter |
| Ranges.InsertAllCanonical | day_5/solution_part_2.py:34-56 | adding the ranges of a sorted, non-touching list one by one rebuilds that list |
| Ranges.LowestStart | day_5/solution_part_2.py:177 | the start of the first range of such a list is the smallest integer it covers |
| Ranges.MergeStep | day_5/solution_part_2.py:48-53 | one pass of the merge loop: the range at the position is absorbed and the union inserted into the rest |
| Ranges.MergeStop | day_5/solution_part_2.py:49-56 | the merging stops at the first range that neither overlaps nor touches; the merged range goes in front of it |
| Ranges.FirstReachingIndex | day_5/solution_part_2.py:40-41 | the first position whose range reaches the new range's start, with every earlier range ending more than one below it; the length when none does |
| Ranges.MergeFrom | day_5/solution_part_2.py:46-56 | the merging loop from that position leaves the prefix in place and inserts the new range into the rest |
| Ranges.SortedRangeList.constructor | day_5/solution_part_2.py:34-36 | a new list is empty and sorted |
| Ranges.SortedRangeList.Add | day_5/solution_part_2.py:38-56 | the list stays sorted and non-touching, and its new value is the corrected insertion of the range |
| RangeMapping.MapRange | day_5/solution_part_2.py:70-76 | a result exists exactly when the source range meets the rule's input range; it then holds exactly the shifted integers of their overlap |
| RangeMapping.FromRangeMap | day_5/solution_part_2.py:78-87 | the input range of a rule built from "destination source length" holds exactly the integers the part-1 rule covers |
| RangeMapping.MapFuncFromLineAgrees | day_5/solution_part_2.py:78-87 | a line reads as a part-2 rule exactly when it reads as a part-1 rule of length at least 1 (shorter ones raise `ValueError`), and both rules send every integer to the same place |
| RangeMapping.MapFuncFromLineShow | day_5/solution_part_2.py:78-87 | a rule written as its almanac line reads back as itself |
| RangeMapping.FromRangeMaps | day_5/solution_part_2.py:127-129 | the part-2 rule of every part-1 rule, in order |
| RangeMapping.MapPointIsFindDestination | day_5/solution.py:106-111 | the point-wise meaning of a list of part-2 rules is part 1's `find_destination` |
| RangeMapping.MapPointDisjoint | day_5/solution_part_2.py:95-97 | with disjoint rules, the rule holding an integer shifts it by its delta, and an integer no rule holds maps to itself |
| RangeMapping.PermutedDisjointRules | day_5/solution_part_2.py:95-97 | reordering disjoint rules (the sort of the corrected reader) does not change where any integer goes |
| RangeMapping.BelowAllRules | day_5/solution_part_2.py:115-118 | an integer below the first of rules sorted by start maps to itself |
| RangeMapping.CutPieces | day_5/solution_part_2.py:115-119 | a range meeting a rule yields at least one piece: the part below the rule, then the shifted overlap |
| RangeMapping.PiecesComplete | day_5/solution_part_2.py:109-123 | the image of every integer of the source range lies in the pieces the sweep produces |
| RangeMapping.PiecesSound | day_5/solution_part_2.py:109-123 | every integer of the pieces is the image of an integer of the source range |
| RangeMapping.PiecesLength | day_5/solution_part_2.py:109-123 | the pieces hold as many integers, counted with repetition, as the source range |
| RangeMapping.CutLength | day_5/solution_part_2.py:115-119 | the part below the rule and the shifted overlap cover the source range up to the rule's end |
| RangeMapping.PiecesUntouched | day_5/solution_part_2.py:109-123 | a range that no rule meets comes through unchanged |
| RangeMapping.PiecesSkip | day_5/solution_part_2.py:109-122 | rules that end below the range are passed over |
| RangeMapping.AllPiecesCover | day_5/solution_part_2.py:99-124 | the pieces of all source ranges cover exactly the images of the integers of the sources |
| RangeMapping.MapAllCover | day_5/solution_part_2.py:99-124 | a stage's result is a sorted, non-touching list covering exactly the image of its sources |
| RangeMapping.AllPiecesLength | day_5/solution_part_2.py:99-124 | before merging, the pieces hold as many integers as the sources: coverage is conserved |
| RangeMapping.MapAllUntouched | day_5/solution_part_2.py:99-124 | sources that no rule meets come out of a stage unchanged |
| RangeMapping.PiecesPass | day_5/solution_part_2.py:120-122 | a rule ending below the remaining range moves the sweep to the next rule |
| RangeMapping.PiecesStop | day_5/solution_part_2.py:110-111 | a remaining range ending below the current rule is emitted whole |
| RangeMapping.PiecesCut | day_5/solution_part_2.py:115-122 | a rule meeting the remaining range emits the part below and the shifted overlap, and the sweep goes on with the rest above the rule |
| RangeMapping.AddAll | day_5/solution_part_2.py:111-119 | adding pieces one by one keeps the destination list sorted and non-touching, equal to adding everything emitted so far |
| RangeMapping.SweepStep | day_5/solution_part_2.py:109-122 | one step of the corrected sweep emits a prefix of the remaining range's pieces and either finishes or moves to a later rule, keeping every passed rule below the remaining range |
| RangeMapping.Sweep | day_5/solution_part_2.py:109-123 | sweeping one source range adds exactly its pieces to the destination list and leaves the rule index at a rule not yet passed |
| RangeMapping.Map | day_5/solution_part_2.py:99-124 | the corrected `RangeMapper.map` returns a new sorted, non-touching list equal to adding, in order, the pieces of every source range |
| RangeMapping.InsertRule | day_5/solution_part_2.py:95-97 | inserting a rule into a list adds exactly that rule |
| RangeMapping.InsertRuleSorted | day_5/solution_part_2.py:95-97 | inserting a rule into a list sorted by start keeps it sorted |
| RangeMapping.SortRules | day_5/solution_part_2.py:95-97 | the rules sorted by the start of their input range, a permutation of the rules read |
| RangeMapping.ParseMapFuncs | day_5/solution_part_2.py:127-129 | defined exactly when every rule line parses, one rule per line, in order |
| RangeMapping.RangeMapperFromLines | day_5/solution_part_2.py:126-129 | the corrected reader yields rules sorted by start, which the sweep needs |
| RangeMapping.StageAgrees | day_5/solution_part_2.py:126-129 | a block with disjoint rules reads as a part-1 stage too, and both stages send every integer to the same place |
| RangeMapping.RangeMappersFromBlocks | day_5/solution_part_2.py:142-163 | one stage per block, in order, defined exactly when every block parses |
| RangeMapping.RunStagesCover | day_5/solution_part_2.py:150-155 | after all stages the list is sorted, non-touching and covers exactly the locations of the seeds covered at the start |
| RangeMapping.FindLocationRanges | day_5/solution_part_2.py:150-155 | the loop over the stages returns a sorted, non-touching list equal to running every stage in order |
| RangeMapping.FirstStartIsLowest | day_5/solution_part_2.py:171-177 | the first start of the result exists exactly when there are seed ranges, and is the lowest location of any seed |
| RangeMapping.SeedRangeValues | day_5/solution_part_2.py:132-139 | the seed ranges exist only for an even count of numbers |
| RangeMapping.SeedRangeValuesBadPair | day_5/solution_part_2.py:137-138 | a pair whose length is below 1 makes constructing its range raise |
| RangeMapping.SeedRangeValuesCover | day_5/solution_part_2.py:132-139 | the seed ranges cover exactly the seeds part 1 expands the pairs into |
| RangeMapping.RangesFromPairs | day_5/solution_part_2.py:135-139 | the loop fails exactly when a start has no length or a length is below 1; otherwise the list holds every pair's range, added in order |
| RangeMapping.GetSeedRanges | day_5/solution_part_2.py:132-139 | fails exactly when the seed line does not parse or its pairs do not all form ranges; otherwise the ranges added in order |
| RangeMapping.LocateAgrees | day_5/solution.py:158-162 | stages that agree point by point locate every seed alike |
| RangeMapping.LocateIsLocationOf | day_5/solution_part_2.py:158-163 | blocks whose rules are disjoint read as part-2 and part-1 stages that locate every integer alike |
| RangeMapping.MinimaAgree | day_5/solution_part_2.py:171-177 | when the seed ranges cover exactly the seeds, the first start after all stages is part 1's lowest location |
| RangeMapping.LowestAgrees | day_5/solution_part_2.py:171-177 | for any seed numbers, the part-2 answer on the ranges is part 1's answer on the expanded seeds |
| RangeMapping.Part2IsLowestOfPart1 | day_5/solution_part_2.py:166-177 | on blocks with disjoint rules, part 2's answer is the lowest location part 1 computes over every seed in the ranges |
| RangesAsWritten.FirstReaching | day_5/solution_part_2.py:40-41 | the generator finds the first range whose `end + 1` reaches the new start, or nothing when every range ends more than one below it |
| RangesAsWritten.IndexOf | day_5/solution_part_2.py:47 | `list.index` finds the first position holding an equal value |
| RangesAsWritten.AddAsWritten | day_5/solution_part_2.py:38-56 | as written, a range that no existing range reaches is appended at the end |
| RangesAsWritten.AddAsWrittenWithoutMerge | day_5/solution_part_2.py:38-56 | where no merge happens, `add` as written agrees with the corrected insertion |
| RangesAsWritten.CanonicalIndexOf | day_5/solution_part_2.py:47 | in a sorted list without repeats, `list.index` finds each range where it is |
| RangesAsWritten.AddAsWrittenDropsRanges | day_5/solution_part_2.py:49-56 | adding `[3, 3]` to `[1, 2], [10, 12], [20, 22]` as written gives the unsorted `[10, 12], [1, 3]`, losing 21; the corrected insertion gives `[1, 3], [10, 12], [20, 22]` |
| RangesAsWritten.MapFuncMapWithoutOverlap | day_5/solution_part_2.py:70-76 | the rule `[5, 10] + 2` on `[31, 37]` builds `Range(33, 12)` and raises |
| RangesAsWritten.SkipBelow | day_5/solution_part_2.py:110-114 | the inner loop keeps the rule and stops at an existing source range |
| RangesAsWritten.PassAsWritten | day_5/solution_part_2.py:109-122 | one pass of the outer loop as written keeps the rule index where it was |
| RangesAsWritten.RunAsWritten | day_5/solution_part_2.py:109-123 | started before the last rule, the outer loop as written never reaches its `return` |
| RangesAsWritten.MapAsWritten | day_5/solution_part_2.py:99-124 | `RangeMapper.map` as written never returns, for any fuel: it raises or keeps looping |
| RangesAsWritten.MapAsWrittenSpins | day_5/test_solution_part_2.py:7 | on `[5, 10]` with the test rules, the second pass repeats the state of the first, so the loop never ends where the test expects `[7, 12]` |
| RangesAsWritten.MapAsWrittenRaises | day_5/test_solution_part_2.py:10 | on `[31, 37]` the first pass applies `[5, 10] + 2` to a range it misses and raises, where the test expects `[26, 27], [31, 31], [34, 37]` |
| RangesAsWritten.RangeMapperFromLinesAsWritten | day_5/solution_part_2.py:126-129 | as written, the reader accepts the same blocks as the corrected one, with the same rules in file order |
| RangesAsWritten.SeedToSoilParsed | day_5/solution_part_2.py:126-129 | the example's first block reads as `[98, 99] - 48`, `[50, 97] + 2`, in file order |
| RangesAsWritten.ParseTwoRules | day_5/solution_part_2.py:78-87 | two rule lines read back as the two rules, in order |
| RangesAsWritten.SeedToSoilSorted | day_5/solution_part_2.py:95-97 | sorting those two rules by start swaps them |
| RangesAsWritten.SeedToSoilRules | day_5/solution_part_2.py:126-129 | as written the example's rules stay unsorted; the corrected reader sorts them |
| RangesAsWritten.UnsortedRulesMisplaceRanges | day_5/solution_part_2.py:109-123 | with the rules in file order the sweep passes `[55, 67]` through unchanged although 55 maps to 57; the sorted rules give `[57, 69]` |
| RangeExamples.MapRangeExample | day_5/test_solution_part_2.py:81-90 | the rule `[5, 10] + 2` maps `[5, 10]` to `[7, 12]` |
| RangeExamples.ShiftedInsideOneRule | day_5/test_solution_part_2.py:7 | with the four test rules, `[5, 10]` maps to `[7, 12]` |
| RangeExamples.BelowEveryRule | day_5/test_solution_part_2.py:8 | `[-3, 4]`, below every rule, comes through unchanged |
| RangeExamples.AboveEveryRule | day_5/test_solution_part_2.py:9 | `[400, 1000]`, above every rule, comes through unchanged |
| RangeExamples.AcrossTheLastRules | day_5/test_solution_part_2.py:10 | `[31, 37]` maps to `[26, 27], [31, 31], [34, 37]` |
| RangeExamples.StartingBelowARule | day_5/test_solution_part_2.py:11 | `[3, 5]` maps to `[3, 4], [7, 7]` |
| RangeExamples.AcrossTwoRules | day_5/test_solution_part_2.py:12 | `[6, 24]` maps to `[8, 14], [21, 27]`: overlapping pieces merge, so the result holds fewer integers than the source |
| RangeExamples.TwoSources | day_5/test_solution_part_2.py:13-14 | `[6, 24], [30, 31]` map to `[8, 14], [21, 27], [29, 29], [31, 31]` |
| RangeExamples.SeedToSoilStage | day_5/test_solution_part_2.py:34-38 | the example's seed-to-soil stage maps `[55, 67], [79, 92]` to `[57, 69], [81, 94]` |
| RangeExamples.SoilToFertilizerStage | day_5/test_solution_part_2.py:39-43 | the soil-to-fertilizer stage leaves `[57, 69], [81, 94]` unchanged |
| RangeExamples.FertilizerToWaterStage | day_5/test_solution_part_2.py:44-48 | the fertilizer-to-water stage gives `[53, 56], [61, 69], [81, 94]` |
| RangeExamples.WaterToLightStage | day_5/test_solution_part_2.py:49-53 | the water-to-light stage gives `[46, 49], [54, 62], [74, 87]` |
| RangeExamples.LightToTemperatureStage | day_5/test_solution_part_2.py:54-58 | the light-to-temperature stage gives `[45, 55], [78, 80], [82, 85], [90, 98]` |
| RangeExamples.TemperatureToHumidityStage | day_5/test_solution_part_2.py:59-63 | the temperature-to-humidity stage gives `[46, 56], [78, 80], [82, 85], [90, 98]` |
| RangeExamples.HumidityToLocationStage | day_5/test_solution_part_2.py:64-69 | the humidity-to-location stage gives `[46, 60], [82, 84], [86, 89], [94, 98]` |
| RangeExamples.ExampleSeedRanges | day_5/solution_part_2.py:132-139 | the seed numbers 79 14 55 13 give the ranges `[79, 92]`, `[55, 67]`, kept as `[55, 67], [79, 92]` |
| RangeExamples.ExamplePipeline | day_5/solution_part_2.py:171-177 | the seven example stages in order take the seed ranges to `[46, 60], [82, 84], [86, 89], [94, 98]`, so part 2 answers 46 |
| HauntedWasteland.DirectionOf | day_8/solution.py:21-23 | `L` is Left, `R` is Right, and any other character is not a direction (`Direction(...)` raises `ValueError`) |
| HauntedWasteland.DirectionsRepeat | day_8/solution.py:31-36 | the instructions repeat: the direction of move `n` is that of move `n` plus any number of full rounds |
| HauntedWasteland.DirectionIterator.constructor | day_8/solution.py:26-29 | a new iterator starts at index 0 with no direction taken |
| HauntedWasteland.DirectionIterator.Next | day_8/solution.py:31-36 | returns the direction of the current move and advances the index by one, wrapping to 0 at the end; on a character that is no direction it raises and changes nothing |
| HauntedWasteland.StripSpec | day_8/solution.py:45 | `strip("()")` returns a slice of its input; every character cut off on either side is a bracket, and a non-empty result neither starts nor ends with one |
| HauntedWasteland.StripLeftSpec | day_8/solution.py:45 | stripping the left end drops exactly the longest prefix of bracket characters |
| HauntedWasteland.StripRightSpec | day_8/solution.py:45 | stripping the right end drops exactly the longest suffix of bracket characters |
| HauntedWasteland.StripBrackets | day_8/solution.py:45 | stripping a text wrapped in one pair of brackets, with no bracket at its ends, gives the text |
| HauntedWasteland.NodeLineHalves | day_8/solution.py:44 | a node line splits on `" = "` into exactly the name and the bracketed pair |
| HauntedWasteland.PairTextSplits | day_8/solution.py:45 | the bracketed pair, stripped, splits on `", "` into exactly the two neighbour names |
| HauntedWasteland.ParseNodeLine | day_8/solution.py:43-46 | a node written as `NAME = (LEFT, RIGHT)` reads back as itself |
| HauntedWasteland.BuildGraph | day_8/solution.py:42-46 | every node is stored under its own name |
| HauntedWasteland.BuildGraphKeys | day_8/solution.py:42-46 | the graph holds exactly the names of the nodes read |
| HauntedWasteland.BuildGraphLast | day_8/solution.py:46 | a name that appears again later is overwritten: the last node with a name is the one kept |
| HauntedWasteland.NodeLines | day_8/solution.py:43 | the node lines are the lines after the instructions and the blank line (none when fewer than two lines) |
| HauntedWasteland.ParseGraphFails | day_8/solution.py:43-46 | one unreadable node line makes the reading fail |
| HauntedWasteland.ParseGraphBuilds | day_8/solution.py:43-46 | when every line reads as a node, the graph is built from those nodes in order |
| HauntedWasteland.ReadNetwork | day_8/solution.py:43-46 | the loop over the node lines yields exactly the graph the line-by-line reading defines |
| HauntedWasteland.ProcessInput | day_8/solution.py:39-47 | fails on no lines or an unreadable node line; otherwise the graph of the node lines and a fresh iterator over the first line |
| HauntedWasteland.IsZzz | day_8/solution.py:50-52 | true exactly for `ZZZ`, which also ends with `Z` |
| HauntedWasteland.EndsWithZ | day_8/solution.py:55-57 | true exactly when the last character is `Z` |
| HauntedWasteland.ArrivalUnique | day_8/solution.py:66-73 | a walk has at most one arrival count and never both arrives and raises |
| HauntedWasteland.Walk | day_8/solution.py:63-74 | the loop returns the first move count at which the node is a destination, or reports the move at which a lookup or a direction fails, or that it is still walking after `fuel` moves |
| HauntedWasteland.SolvePart1 | day_8/solution.py:61-74 | fails at once when the input does not read; otherwise its outcome is explained by the walk from the start node |
| HauntedWasteland.StartNames | day_8/solution.py:78 | exactly the node names of the graph that end with `A` |
| HauntedWasteland.StepsOf | day_8/solution.py:79-80 | the move count with which a walk to a name ending in `Z` arrives |
| HauntedWasteland.SolvePart2 | day_8/solution.py:76-81 | fails at once when the input does not read; otherwise every walk from a start node arrives and the answer is the least common multiple of their move counts, or the walk from some start node raised or ran out of moves |
| HauntedWasteland.WalkAll | day_8/solution.py:79-81 | the walks from a set of names combine into the least common multiple of their move counts, or the outcome of the first that does not arrive |
| HauntedWasteland.Part2Step | day_8/solution.py:79-81 | one more arriving walk extends the least common multiple to `Lcm(total, steps)` |
| HauntedWasteland.AllStepsAdd | day_8/solution.py:79-80 | one more arriving walk adds its move count to the set of counts |
| HauntedWasteland.ArrivalStepsOf | day_8/solution.py:79-80 | the move count of an arriving walk is the one `StepsOf` names |
| LeastCommonMultiple.Gcd | day_8/solution.py:81 | the greatest common divisor is positive unless both inputs are 0 |
| LeastCommonMultiple.GcdDivides | day_8/solution.py:81 | the greatest common divisor divides both inputs |
| LeastCommonMultiple.GcdGreatest | day_8/solution.py:81 | every common divisor divides the greatest common divisor |
| LeastCommonMultiple.LcmMultiple | day_8/solution.py:81 | `Lcm(a, b)` is a multiple of both inputs |
| LeastCommonMultiple.LcmLeast | day_8/solution.py:81 | `Lcm(a, b)` divides every common multiple |
| LeastCommonMultiple.IsLcmUnique | day_8/solution.py:81 | a set of counts has only one least common multiple |
| LeastCommonMultiple.LcmOfNone | day_8/solution.py:81 | the least common multiple of no counts is 1, as `math.lcm()` returns |
| LeastCommonMultiple.LcmInsert | day_8/solution.py:81 | the least common multiple of a set with one more count is `Lcm` of the old value and the count |
| ParabolicReflectorDish.RestRow | day_14/solution.py:21-32 | the row where a rock starting at row `r` comes to rest: every cell between it and `r` is empty, and the cell above it is the edge or not empty |
| ParabolicReflectorDish.MoveNorthLifts | day_14/solution.py:21-32 | the recursive swapping moves a round rock straight to its rest row, emptying its old cell, and leaves anything else where it was |
| ParabolicReflectorDish.LiftAfterSwap | day_14/solution.py:30-32 | one swap followed by the recursive call ends where the rock would have gone directly |
| ParabolicReflectorDish.MoveNorthRearranges | day_14/solution.py:21-32 | moving a rock keeps the shape and the cube-shaped rocks, and only reorders the cells of its column |
| ParabolicReflectorDish.CountRocks | day_14/solution.py:63 | the number of round rocks in a row is at most its length |
| ParabolicReflectorDish.LoadPut | day_14/solution.py:57-66 | changing one cell changes the load by the rock gained or lost times that row's weight |
| ParabolicReflectorDish.MoveNorthLoad | day_14/solution.py:21-32 | moving a round rock north raises the load by exactly the number of rows it moves |
| ParabolicReflectorDish.SlideRowsSettles | day_14/solution.py:35-39 | after rows 0 .. i−1 are processed in order, no rock in them can roll further north |
| ParabolicReflectorDish.SlideSettles | day_14/solution.py:35-39 | after the full sweep no round rock can roll further north |
| ParabolicReflectorDish.SlideRearranges | day_14/solution.py:35-39 | sliding keeps the shape and the cube-shaped rocks, and only reorders the cells of each column |
| ParabolicReflectorDish.SlideLoad | day_14/solution.py:35-39 | sliding north never lowers the load |
| ParabolicReflectorDish.SettledSlideRows | day_14/solution.py:35-39 | a settled field is left unchanged by the sweep |
| ParabolicReflectorDish.SlideIdempotent | day_14/solution.py:35-39 | sliding twice is sliding once |
| ParabolicReflectorDish.Rotate | day_14/solution.py:45 | `np.rot90(field, 3)` on any rectangular field: a clockwise quarter turn, swapping the dimensions, with cell `(i, j)` taken from `(height − 1 − j, i)`; a field without columns turns into one without rows |
| ParabolicReflectorDish.RotateFour | day_14/solution.py:42-46 | four quarter turns give back the field |
| ParabolicReflectorDish.SpinsSameCubes | day_14/solution.py:42-46 | after any number of slide-and-turn steps, the cube-shaped rocks sit where the turns alone would put them |
| ParabolicReflectorDish.CycleKeepsCubes | day_14/solution.py:42-46 | a full cycle keeps the shape and leaves every cube-shaped rock where it was |
| ParabolicReflectorDish.IterateKeepsCubes | day_14/solution.py:83-86 | any number of cycles keeps the cube-shaped rocks in place |
| ParabolicReflectorDish.IterateAdd | day_14/solution.py:83-86 | `a + b` cycles are `b` cycles after `a` cycles |
| ParabolicReflectorDish.TargetCycle | day_14/solution.py:103-105 | the cycle number computed lies in the first repetition, `first <= t < second`, and differs from `n` by a multiple of the period |
| ParabolicReflectorDish.Periodic | day_14/solution.py:103-105 | once the field after cycle `first` recurs after cycle `second`, the fields repeat with that period |
| ParabolicReflectorDish.RepeatedField | day_14/solution.py:100-115 | the field after `n` cycles is the field after the computed cycle number, which is how part 2 answers |
| ParabolicReflectorDish.TryMoveToNorth | day_14/solution.py:21-32 | the array afterwards holds the field with the rock at `(row, col)` moved north |
| ParabolicReflectorDish.SlideRocksToNorth | day_14/solution.py:35-39 | the nested loops leave the array holding the slid field |
| ParabolicReflectorDish.RotateClockwise | day_14/solution.py:45 | on any array, including one with no rows or no columns: a new array with the dimensions swapped and cell `(i, j)` taken from `(rows − 1 − j, i)`; for a field with rows, its cells are `Rotate` of the old cells |
| ParabolicReflectorDish.CompleteCycle | day_14/solution.py:42-46 | the array returned holds one cycle of the field: four rounds of slide north and turn |
| ParabolicReflectorDish.CountPoints | day_14/solution.py:57-66 | the loop returns the load: the sum over rows of the round rocks times the rows from the south edge |
| ParabolicReflectorDish.LinesToArray | day_14/solution.py:17-18 | fails exactly on no lines or lines of unequal length; otherwise a new array holding the lines |
| ParabolicReflectorDish.SolvePart1 | day_14/solution.py:71-74 | the load of the field slid north, or failure when the lines are not a rectangle |
| ClumsyCrucible.Index | day_17/solution.py:9 | every direction has a position among the four, in the order `N`, `E`, `S`, `W` that `get_args` yields |
| ClumsyCrucible.AreOpposites | day_17/solution.py:12-21 | true exactly when the second direction is the reverse of the first |
| ClumsyCrucible.OppositesSymmetric | day_17/solution.py:12-21 | being opposite is symmetric, no direction is its own opposite, and reversing twice gives back the direction |
| ClumsyCrucible.MoveAndBack | day_17/solution.py:24-33 | a move reaches a neighbouring cell, and the opposite move leads back |
| ClumsyCrucible.NodeFromTuple | day_17/solution.py:48-55 | the node built from a key turns back into that key |
| ClumsyCrucible.NodeTupleRoundTrip | day_17/solution.py:44-55 | a node turned into its key and back is the same node |
| ClumsyCrucible.SuccessorRules | day_17/solution.py:85-102 | a move in direction `d` is allowed exactly when it does not reverse, stays on the grid and is at most the third in a row; the next node is adjacent, takes direction `d`, and counts 1 or one more than before |
| ClumsyCrucible.MarkFromSets | day_17/solution.py:109-120 | marking sets the next node's key and every key of the same cell and direction with a higher count up to 3 to the same entry, and keeps every other key |
| ClumsyCrucible.ExpandNode | day_17/solution.py:85-120 | the loop over the four directions returns exactly the visited table and pushed entries that expanding the node defines |
| ClumsyCrucible.ExpandOneKeeps | day_17/solution.py:85-120 | one direction keeps every visited key, changes only keys of that direction, and pushes at most one entry |
| ClumsyCrucible.ExpandOnePushes | day_17/solution.py:103-110 | an entry is pushed for an allowed move exactly when its state was not yet visited, at the distance plus the heat loss of the new cell, marked visited |
| ClumsyCrucible.ExpandUpToFacts | day_17/solution.py:85-120 | after the first `i` directions, the visited keys are kept, the entries are right and in direction order, and every allowed unvisited move among them is pushed |
| ClumsyCrucible.ExpandStep | day_17/solution.py:85-120 | one more direction keeps all of those facts |
| ClumsyCrucible.StepPushedRight | day_17/solution.py:103-110 | entries pushed before stay right once a later direction has marked its keys |
| ClumsyCrucible.StepCovered | day_17/solution.py:85-110 | after one more direction, every allowed unvisited move of the directions done so far is pushed |
| ClumsyCrucible.StepOrdered | day_17/solution.py:85 | entries stay in the order of their directions |
| ClumsyCrucible.ExpandNodeFacts | day_17/solution.py:85-120 | expanding a node keeps every visited key, pushes only allowed moves to unvisited states at the right distance, at most one per direction, and misses no allowed unvisited move |
| ClumsyCrucible.NeverPushedTwice | day_17/solution.py:103-110 | across the search a state is never pushed twice: every pushed state stays marked visited |

## Left out

- File reading: `read_lines`, `read_file`, day 1's own `read_lines`, the solver base class that picks the input file, the `solve` wrappers and the `__main__` blocks. Each solution takes its input as a sequence of lines, and day 5 takes its `"\n\n"`-separated blocks already split.
- `try_parse_int` and Python's `int` accept only an optional `-` followed by ASCII digits here. Signs `+`, surrounding whitespace, underscores and non-ASCII digits are not modelled.
- `CubeConundrum.FromLinePart`: Python's `setattr` with a colour other than red, green or blue would add an attribute. The model ignores such items.
- `Scratchcards.Points`: `math.pow` returns a float. The model uses the integer power of two it equals for the counts that occur.
- The earlier interval variant of day 5 part 2 in `day_5/solution.py` is not modelled: `Range.try_combine_with`, `SortedRangeCollection`, `find_destination_ranges` and `find_location_ranges` at lines 48-120 and 190-196. `solve_part_2` returns at line 139, before any of it is reached.
- `RangeMapping.Map` is total, as the corrected sweep: with no source ranges it returns an empty list, and with a stage that has no rules it returns the source ranges unchanged. The source raises `IndexError` in both cases, at `source_ranges[0]` (`day_5/solution_part_2.py:103`) and at `self.sorted_map_funcs[0]` (line 107). `RangesAsWritten.MapAsWritten` models those raises; the same holds for `RangeMapping.FindLocationRanges`, which calls `Map` once per stage.
- The class-level default `sorted_ranges = []` of `SortedRangeList` is one list shared by every instance built without an argument. Each model instance owns its own sequence, so that aliasing is not modelled.
- `HauntedWasteland.Walk`, `HauntedWasteland.SolvePart1` and `HauntedWasteland.SolvePart2` take a fuel bound, because the walk in the source need not end. An exhausted bound is reported as unfinished and says nothing about what the source would do after that many steps.
- `math.lcm` is not modelled as library code. It is stated through Euclid's algorithm and the least-common-multiple property of a set (`LeastCommonMultiple`).
- Day 8 part 2 walks from the start nodes in dictionary order. The model takes the start names as a set, since the least common multiple does not depend on order. Re-reading the input once per start node is modelled as reading it once.
- The day 14 part-2 driver is modelled only as its cycle-number arithmetic (`TargetCycle`, `RepeatedField`). Left out: the loop that searches for a repeated field, the dictionary of earlier fields compared with `np.array_equal`, the exception when none is found within 999 cycles, and `time`/`print`.
- `np.rot90(field, 3)` is modelled as an explicit clockwise index rotation into a new array. The numpy view it returns, which shares memory with the old field, is not modelled.
- `ParabolicReflectorDish.Rotate` works on the field as a sequence of rows. A field with no rows has no width to keep, so its turn is the empty sequence, not the `width × 0` array `np.rot90` gives.
- `ParabolicReflectorDish.RotateClockwise` works on arrays and keeps both dimensions in every case, but states its cells as `Rotate` only for a field with at least one row.
- `ParabolicReflectorDish.CompleteCycle` requires a field with at least one row and one column, and so do `RotateFour` and `Spin`. A sequence of rows cannot bring back the width of a field that a turn has left without rows.
- `ParabolicReflectorDish.RepeatedField` requires the cycle count to be at least the first repeated cycle, as in the source's use of it.
- `smarter_slide_rocks_to_north` in `day_14/solution.py` computes nothing and is not modelled.
- Day 17's priority-queue search is not modelled: the outer loop of `solve_part_1`, the order in which `queue.PriorityQueue` returns entries, and its tie-breaking by node order. Only the expansion of one node (the successor rules and the visited-state marking) is modelled, plus the fact that no state is pushed twice. `lines_to_int_array` (general/utils.py) is not part of this model; the grid is given as integers.
- The start-node loop at `day_17/solution.py:76-78` has no effect and is not modelled. Day 17's `solve_part_2` is empty.

## Findings

| source | as written | input that shows it | evidently intended | confidence | as-written member | corrected member |
|---|---|---|---|---|---|---|
| day_5/solution_part_2.py:109-123 | `RangeMapper.map` never advances `current_map_func_index`, so the outer loop never ends | the tests' first rule, `[5, 10]` with delta 2, on source `[5, 10]`: each pass adds `[7, 12]` again and leaves the loop state as it was | move on to the next rule after each rule, and return the merged images | not executed | RangesAsWritten.MapAsWrittenSpins | RangeMapping.Map |
| day_5/solution_part_2.py:70-76 | `MapFunc.map` is called on a source range that the rule does not meet, and builds a range whose start is above its end, which raises | rule `[5, 10]` with delta 2 on source `[31, 37]` gives start 33 and end 12 | map only the part that overlaps the rule, and keep the rest for later rules | not executed | RangesAsWritten.MapAsWrittenRaises | RangeMapping.CutPieces |
| day_5/solution_part_2.py:48-56 | `SortedRangeList.add` combines only once and never re-tests the merge inside its loop, so it removes ranges that do not touch and can leave the list unsorted | add `[3, 3]` to `[1, 2], [10, 12], [20, 22]`: the result is `[10, 12], [1, 3]`, and `[20, 22]` is lost | merge the new range with every range it overlaps or touches and keep the list sorted | not executed | RangesAsWritten.AddAsWrittenDropsRanges | Ranges.SortedRangeList.Add |
| day_5/solution_part_2.py:126-129 | `RangeMapper.from_lines` keeps the rules in file order, but `map` needs them sorted by start | the example's seed-to-soil block with source `[55, 67]`: it is left unmapped instead of becoming `[57, 69]` | sort the rules by the start of their input range | not executed | RangesAsWritten.UnsortedRulesMisplaceRanges | RangeMapping.RangeMapperFromLines |
