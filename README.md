# Advent of Code 2024, days 1 to 8, in Dafny

This project models eight Advent of Code 2024 solutions and proves what each
one computes:

- the day 1 list distance and similarity, in C and in Python;
- the day 2 report safety check and its "problem dampener" variant, in C and
  in Python;
- the day 3 C state machine that sums the `mul(a,b)` instructions, and the
  in-place buffer splicer that cuts out every `don't()` ... `do()` span;
- the day 4 word search: a recursive matcher, a window-based counter and the
  "X-MAS" counter;
- the day 5 page-ordering builder and the input splitter;
- the day 6 guard walk, including the negative-index wrap of the original
  obstacle test;
- the day 7 operator search over `*`, `+` and digit concatenation;
- the day 8 antenna map and the set of antinodes.

Everything the programs read from files arrives here as a parameter: the
parsed pairs, the lines of text, the character grid or the byte buffer. Each
source file becomes one module:

| module | file | form |
|---|---|---|
| `Day01C` | `day01_c.dfy` | methods over arrays; the growable list is a class |
| `Day01Py` | `day01_py.dfy` | an append loop as a method; the sums as functions |
| `Day02C` | `day02_c.dfy` | methods over arrays with loop invariants |
| `Day02Py` | `day02_py.dfy` | functions and lemmas |
| `Day03C` | `day03_c.dfy` | the state machine as methods; the splicer over an `array<char>` |
| `Day04Py` | `day04_py.dfy` | `match_word` as a function; the counting loops as methods |
| `Day05Py` | `day05_py.dfy` | the in-place list builder and the line loop as methods over specification functions |
| `Day06Py` | `day06_py.dfy` | table lookups as functions; the finder and the walker as methods |
| `Day07Py` | `day07_py.dfy` | `operate` as a function; the `main` loop as a method |
| `Day08Py` | `day08_py.dfy` | the `defaultdict` builder and the antinode loops as methods |

Four shared modules hold the library behaviour the programs rely on:

- `Wrappers` holds `Option` and `Result`.
- `PyText` models Python's `str.strip`, `str.split`, `int`, `str`,
  `list.index` and negative indexing. It also holds the `Exc` datatype:
  `ValueError | IndexError`.
- `Text` models C `strstr` and decimal digit strings.
- `Seqs` models counting and the ascending sort used by `qsort` and
  `list.sort`.

A Python exception is a value: operations that can raise return a `Result`
whose `Err` carries the exception. Unbounded loops carry a `fuel` parameter.

## Model

| member | source | states |
|---|---|---|
| `Seqs.Count` | 2024/day-01/solution.py:19 | `right.count(l)`: the count is the multiplicity of `l` in the list and is at most its length |
| `Seqs.SortSeq` | 2024/day-01/solution.py:15-16 | The library sort returns a sorted permutation of its input, of the same length |
| `Day01C.ToInt` | 2024/day-01/solution.c:18-19 | Returning a `long` through `int` wraps it into 32 bits and keeps it modulo 2^32; values that already fit are unchanged |
| `Day01C.CompareLongAsWritten` | 2024/day-01/solution.c:18-20 | `compareLong` as written returns a 32-bit result whose sign agrees with `a - b` when the difference fits in an `int` |
| `Day01C.CompareLongTruncates` | 2024/day-01/solution.c:18-20 | As written, the distinct values 2^32 and 0 compare as equal |
| `Day01C.CompareLong` | 2024/day-01/solution.c:18-20 | The comparator `qsort` needs: negative, zero or positive exactly when a < b, a == b or a > b |
| `Day01C.NumberFreq` | 2024/day-01/solution.c:54-64 | `number_freq` counts the occurrences of `num` among the first `len` elements; the count is between 0 and `len`, and 0 exactly when `num` is absent |
| `Day01C.SortList` | 2024/day-01/solution.c:44-45 | `sort_list` leaves the array unchanged, since its body is empty |
| `Day01C.ComparableAgrees` | 2024/day-01/solution.c:18-20 | When every two values differ by an amount that fits in an `int`, `compareLong` as written has the sign of the intended three-way comparison on them |
| `Day01C.Qsort` | 2024/day-01/solution.c:106-107 | When every two of the first `n` values differ by an amount that fits in an `int`, `qsort` with `compareLong` makes them their ascending permutation and leaves the rest unchanged |
| `Day01C.NumList.constructor` | 2024/day-01/solution.c:67-72 | A fresh list has a capacity of 100 and no elements |
| `Day01C.NumList.Resize` | 2024/day-01/solution.c:28-37 | `resize_list` doubles the capacity and keeps the count and every stored element |
| `Day01C.NumList.Append` | 2024/day-01/solution.c:91-102 | The list grows only when full, to twice its size; the value is appended, the count rises by one and stays within the capacity |
| `Day01C.ReadColumns` | 2024/day-01/solution.c:87-103 | After the read loop the left list holds the first numbers of the pairs and the right list the second numbers; both counts equal the number of pairs |
| `Day01C.Distance` | 2024/day-01/solution.c:112-114 | The part 1 loop computes the Python `dist` of the two lists, which is non-negative |
| `Day01C.Similarity` | 2024/day-01/solution.c:121-123 | The part 2 loop computes the Python `sim`: the sum of each left value times its count in the right list |
| `Day01C.Solve` | 2024/day-01/solution.c:87-123 | When each column's values differ pairwise by an amount that fits in an `int`, the distance is that of the two sorted columns; the similarity equals that of the unsorted columns |
| `Day01Py.SplitColumns` | 2024/day-01/solution.py:8-13 | Each line adds its first number to `left` and its second to `right`, so both lists have the length of the input |
| `Day01Py.Run` | 2024/day-01/solution.py:8-19 | Both lists are sorted permutations of the columns and have equal length; `dist` and `sim` are taken over the sorted lists |
| `Day01Py.Dist` | 2024/day-01/solution.py:18 | `dist`: for lists of equal length the distance is 0 exactly when the lists are equal |
| `Day01Py.SumAbsDiffZeroIff` | 2024/day-01/solution.py:18 | The sum of absolute differences is 0 exactly when the paired lists are equal |
| `Day01Py.DistSymmetric` | 2024/day-01/solution.py:18 | Swapping the two columns leaves the distance unchanged |
| `Day01Py.SumAbsDiffSymmetric` | 2024/day-01/solution.py:18 | `abs` is symmetric, so each pair contributes the same either way round |
| `Day01Py.SimIgnoresAbsent` | 2024/day-01/solution.py:19 | A left value that does not occur in `right` adds nothing to the similarity |
| `Day01Py.SimOfSorted` | 2024/day-01/solution.py:15-19 | Sorting `left` does not change the similarity |
| `Day01Py.SimOfSortedRight` | 2024/day-01/solution.py:16-19 | Sorting `right` does not change the similarity |
| `Day01Py.SimInsert` | 2024/day-01/solution.py:19 | Inserting a value into the left list adds that value times its count in `right` |
| `Day02Py.ChangesOf` | 2024/day-02/solution.py:10 | The changes of `pairwise` are `report[k + 1] - report[k]`, one fewer than the levels |
| `Day02Py.Safe` | 2024/day-02/solution.py:6-15 | `safe` holds exactly when every step rises by 1 to 3 or every step falls by 1 to 3; reports of length 0 or 1 are safe |
| `Day02Py.SafeStepsIff` | 2024/day-02/solution.py:10-15 | The test on the list of changes agrees with the test on the steps of the report |
| `Day02Py.SafeStepsWithin` | 2024/day-02/solution.py:11-14 | One sign throughout with sizes 1 to 3 means all changes lie in [1, 3] or all lie in [-3, -1], and the converse |
| `Day02Py.ChangesWithinSteps` | 2024/day-02/solution.py:10 | The changes lie in a range exactly when every step of the report does |
| `Day02Py.RemoveAt` | 2024/day-02/solution.py:22 | A combination of `len(report) - 1` levels is the report without one index, so it is one level shorter |
| `Day02Py.SafePrefix` | 2024/day-02/solution.py:10-15 | Dropping the last level of a safe report keeps it safe |
| `Day02Py.DampenedSafeIff` | 2024/day-02/solution.py:17-22 | `dampened_safe` holds exactly when some removal of one level is safe; the short-circuit on `safe` adds nothing |
| `Day02Py.SafeDropsLast` | 2024/day-02/solution.py:19-22 | A safe report still has a safe combination: the one without its last level |
| `Day02Py.SafeImpliesDampened` | 2024/day-02/solution.py:19 | A safe report is dampened-safe |
| `Day02Py.NumSafeAtMostDampened` | 2024/day-02/solution.py:26-29 | The dampened count is at least the safe count |
| `Day02C.AllPositive` | 2024/day-02/solution.c:33-39 | True exactly when no change is below zero, so zeros pass |
| `Day02C.AllNegative` | 2024/day-02/solution.c:47-53 | True exactly when no change is above zero |
| `Day02C.Safe` | 2024/day-02/solution.c:61-73 | True exactly when all changes lie in [1, 3] or all lie in [-3, -1], which is the Python `safe` on the same changes; an empty array is safe |
| `Day02C.LevelsChange` | 2024/day-02/solution.c:134-144 | `changes[i - 1]` becomes `levels[i] - levels[i - 1]` for `1 <= i < num`, matching `pairwise`; nothing else is written |
| `Day02C.CombinationWithout` | 2024/day-02/solution.c:92-99 | The buffer holds every level except the one at `skip`, in order |
| `Day02C.SafeWithout` | 2024/day-02/solution.c:89-104 | One pass of the `skip` loop is the Python `safe` of the report without that level |
| `Day02C.DampenedSafe` | 2024/day-02/solution.c:81-108 | True exactly when some skip index leaves a safe report; at least two levels are needed for the buffer sizes |
| `Day02C.CheckReport` | 2024/day-02/solution.c:162-173 | The report's `safe` agrees with Python's `safe`; `dampened_safe` runs only when `safe` fails and then agrees with Python's `dampened_safe` |
| `Day02C.CountReports` | 2024/day-02/solution.c:158-178 | `safe_count` is the Python safe count, and the printed `safe_count + dampened_safe_count` is the Python dampened count |
| `Text.Find` | 2024/day-03/solution.c:38 | `strstr` from a position gives the first occurrence at or after it, or none when there is none |
| `Text.DecimalAppend` | 2024/day-03/solution.c:111-112 | The value of two digit strings written one after the other is the first shifted by the length of the second, plus the second |
| `Day03C.CString` | 2024/day-03/solution.c:183-185 | The C string of a buffer is its prefix before the first NUL, and the whole buffer when there is none |
| `Day03C.DigitRun` | 2024/day-03/solution.c:59-63 | The digit loop reads at most three digits, all digits, and stops at a non-digit unless it read three |
| `Day03C.MulAt` | 2024/day-03/solution.c:47-114 | An instruction the state machine accepts starts with `mul(`, spans at least the eight characters of `mul(d,d)` and ends inside the text, and its operands, of at most three digits, are below 1000 |
| `Day03C.MulAtIsRegex` | 2024/day-03/solution.c:47-114 | The state machine accepts an instruction at a position exactly when the regular expression `mul\(([0-9]{1,3}),([0-9]{1,3})\)` matches there |
| `Day03C.MulAtMatches` | 2024/day-03/solution.c:57-107 | The digit runs the machine reads are the expression's two groups |
| `Day03C.RegexMatchIsMulAt` | 2024/day-03/solution.c:57-113 | A match of the expression is accepted, with the values of its two groups as operands |
| `Day03C.RunOfDigits` | 2024/day-03/solution.c:59-63 | One to three digits followed by a non-digit are read whole |
| `Day03C.SumFromSkips` | 2024/day-03/solution.c:124 | Skipping positions where no instruction starts loses nothing from the total |
| `Day03C.SumFromFind` | 2024/day-03/solution.c:38-39 | `strstr` for `mul(` skips no instruction; with no token left the remaining total is 0 |
| `Day03C.SkipNonM` | 2024/day-03/solution.c:124 | Resuming after a failure skips only characters other than `m`, so a `mul(` inside a failed prefix is still found |
| `Day03C.ReadDigits` | 2024/day-03/solution.c:59-63 | The copy loop returns the digit run at the cursor |
| `Day03C.ReadLeft` | 2024/day-03/solution.c:57-71 | State `parser_none` moves to `parser_left_digit` after one to three digits and to `parser_error` when there are none |
| `Day03C.ReadComma` | 2024/day-03/solution.c:72-82 | State `parser_left_digit` accepts a `,` or fails, so a fourth digit is an error |
| `Day03C.ReadRight` | 2024/day-03/solution.c:83-97 | State `parser_comma` moves on after one to three digits and fails when there are none |
| `Day03C.ReadParen` | 2024/day-03/solution.c:98-108 | State `parser_right_digit` accepts a `)` or fails |
| `Day03C.AddProduct` | 2024/day-03/solution.c:109-115 | State `parser_close_paren` adds the product of the instruction's two operands and completes |
| `Day03C.Advance` | 2024/day-03/solution.c:56-120 | One pass of the state machine keeps the invariant and lowers the rank of the state; the total grows by the instruction's product exactly on completion |
| `Day03C.ParseAt` | 2024/day-03/solution.c:40-124 | Running the machine on a token found at `j` adds the product of the instruction there, if any, and resumes past `j` without skipping an instruction |
| `Day03C.ParseInstructions` | 2024/day-03/solution.c:34-127 | `parse_instructions` returns the sum of the products of all instructions in the C string |
| `Day03C.NoTokenNoTotal` | 2024/day-03/solution.c:38-39 | Text containing no `mul(` totals 0 |
| `Day03C.CStringAppend` | 2024/day-03/solution.c:150-154 | Characters before the first NUL pass into the C string unchanged |
| `Day03C.SpliceString` | 2024/day-03/solution.c:148-154 | After the `memmove` and `memset`, the buffer still holds a NUL and its C string lost exactly the span from the `don't()` to the end of the `do()` |
| `Day03C.SpliceShape` | 2024/day-03/solution.c:148-154 | The splice shifts the rest of the buffer left over the span and zero-fills the freed tail, keeping the length |
| `Day03C.TruncateString` | 2024/day-03/solution.c:140-146 | A `don't()` with no later `do()` ends the C string where the `don't()` began |
| `Day03C.Recovered` | 2024/day-03/solution.c:134-159 | The recovered text holds no `don't()` and is no longer than the input |
| `Day03C.RecoveredSplice` | 2024/day-03/solution.c:140-157 | With a later `do()`, recovery is the recovery of the text without the span |
| `Day03C.RecoveredTruncate` | 2024/day-03/solution.c:141-145 | With no later `do()`, recovery is the text before the `don't()` |
| `Day03C.RecoverBuf` | 2024/day-03/solution.c:138-158 | The rewritten buffer keeps its length |
| `Day03C.RecoverBufString` | 2024/day-03/solution.c:138-158 | The C string of the rewritten buffer is the recovered text |
| `Day03C.MemMove` | 2024/day-03/solution.c:150 | `memmove` down the buffer copies the source range to the destination and leaves the rest unchanged |
| `Day03C.MemSet` | 2024/day-03/solution.c:154 | `memset` fills the range and leaves the rest unchanged |
| `Day03C.TruncateAt` | 2024/day-03/solution.c:144 | The no-`do()` branch zero-fills all but the last seven bytes from the `don't()` on |
| `Day03C.CutSpan` | 2024/day-03/solution.c:149-154 | The `do()` branch performs the splice |
| `Day03C.RecoverInstructions` | 2024/day-03/solution.c:134-159 | The buffer is rewritten in place to the recovered buffer; its C string is the recovered text and holds no `don't()` |
| `Day03C.Solve` | 2024/day-03/solution.c:187-191 | Part 1 sums the instructions of the text; part 2 sums those of the recovered text |
| `Day04Py.DirsAreNeighbours` | 2024/day-04/solution.py:66 | The direction list holds the eight non-zero steps in {-1, 0, 1} squared, each once |
| `Day04Py.FitsAt` | 2024/day-04/solution.py:45 | Inside the bounds the cell read is `grid[x][y]` |
| `Day04Py.PosLinear` | 2024/day-04/solution.py:46 | After n recursive steps the position is the start plus n times the direction |
| `Day04Py.MatchWord` | 2024/day-04/solution.py:22-49 | `match_word` is true exactly when every letter from `idx` on lies at the next in-bounds cell along the direction; it is true when `idx == len(match)` |
| `Day04Py.ReadsStep` | 2024/day-04/solution.py:39-49 | Reading from `idx` is reading one in-bounds letter and then the rest one step further on |
| `Day04Py.SearchBound` | 2024/day-04/solution.py:59-70 | `search` finds at most one match per cell and direction, so at most 8 times rows times cols |
| `Day04Py.Search` | 2024/day-04/solution.py:52-70 | `search` counts the (row, column, direction) triples at which the word reads, at most 8 times rows times cols; an empty grid raises IndexError at `len(grid[0])`, and an empty word raises it at `match[0]` exactly when the grid has a cell |
| `Day04Py.CollectedFull` | 2024/day-04/solution.py:91-95 | A window has the word's length exactly when every step stays inside the bounds, and then it holds those cells |
| `Day04Py.WindowIsMatchWord` | 2024/day-04/solution.py:91-97 | A full window equals the word exactly when `match_word` succeeds from its start in its direction |
| `Day04Py.Reverse` | 2024/day-04/solution.py:85 | `match[::-1]` has the letters in the opposite order |
| `Day04Py.FindHitIsMatchWord` | 2024/day-04/solution.py:85-100 | A window counts exactly when the word reads from its start or backwards from its end |
| `Day04Py.FindBound` | 2024/day-04/solution.py:97-100 | Each of the four windows of a cell counts at most once |
| `Day04Py.Windows` | 2024/day-04/solution.py:89-95 | The inner loop builds the right, down, diagonal and anti-diagonal windows of a cell |
| `Day04Py.FindAt` | 2024/day-04/solution.py:89-100 | One cell adds one for each of its windows that is the word or its reverse |
| `Day04Py.FindStr` | 2024/day-04/solution.py:73-102 | `find_str` counts the matching windows of every cell left of the newline column (`len(grid[0]) - 1`), at most four per cell; an empty grid raises IndexError |
| `Day04Py.MatchWord3` | 2024/day-04/solution.py:117-118 | A three-letter word reads along three in-bounds cells exactly when those cells spell it |
| `Day04Py.DiagonalIsMas` | 2024/day-04/solution.py:117-121 | A diagonal spells "MAS" or "SAM" exactly when "MAS" reads along it from one end or the other |
| `Day04Py.XIsMatchWord` | 2024/day-04/solution.py:115-122 | A window is counted exactly when "MAS" reads along both of its diagonals, each in one direction or the other |
| `Day04Py.XAt` | 2024/day-04/solution.py:117-122 | One window is counted when both diagonals read "MAS" or "SAM" |
| `Day04Py.FindXmas` | 2024/day-04/solution.py:105-124 | `find_xmas` counts the 3x3 windows with "MAS" or "SAM" on both diagonals, at most rows times cols; an empty grid raises IndexError |
| `PyText.Index` | 2024/day-05/solution.py:58 | `list.index` of a present value is its first position |
| `PyText.ListIndex` | 2024/day-06/solution.py:33 | `list.index` raises ValueError exactly when the value is absent, and otherwise gives its first position |
| `PyText.PyAt` | 2024/day-06/solution.py:88 | Python indexing: a negative index counts from the end, and anything else out of range raises IndexError |
| `PyText.Strip` | 2024/day-05/solution.py:73 | `strip()` leaves no whitespace at either end |
| `PyText.StripCuts` | 2024/day-05/solution.py:73 | `strip()` keeps a middle piece and drops only whitespace around it |
| `PyText.StripTrimmed` | 2024/day-05/solution.py:73 | Text without surrounding whitespace is its own `strip()` |
| `PyText.Split` | 2024/day-05/solution.py:79 | `split(sep)` gives at least one piece |
| `PyText.SplitJoin` | 2024/day-05/solution.py:79 | Joining the pieces of `split(sep)` with `sep` gives the text back |
| `PyText.SplitPiecesFree` | 2024/day-05/solution.py:79 | No piece of `split(sep)` contains `sep` |
| `PyText.SplitAbsent` | 2024/day-05/solution.py:79 | Text without the separator splits into itself alone |
| `PyText.JoinSplit` | 2024/day-05/solution.py:82 | Pieces free of a one-character separator, joined and split again, come back unchanged |
| `PyText.Words` | 2024/day-07/solution.py:81 | `split()` gives non-empty pieces without whitespace |
| `PyText.WordsKeepText` | 2024/day-07/solution.py:81 | The pieces of `split()`, put together, are the text's non-whitespace characters in order |
| `PyText.WordsOfSpaced` | 2024/day-07/solution.py:81 | `split()` takes space-separated words back apart |
| `PyText.ParseInt` | 2024/day-05/solution.py:80 | `int(s)` succeeds only on text that is not blank |
| `PyText.ParseLiteral` | 2024/day-05/solution.py:80 | `int` of stripped text succeeds only on non-empty text |
| `PyText.ParseInts` | 2024/day-05/solution.py:82 | `list(map(int, parts))` reads every part, or raises the ValueError of the first part that is no integer |
| `PyText.ParseIntsFails` | 2024/day-05/solution.py:82 | `list(map(int, parts))` fails only when some part is no integer |
| `PyText.ParseIntsOfAll` | 2024/day-05/solution.py:82 | Parts that each read as a number read, together, as the list of those numbers |
| `PyText.NatStr` | 2024/day-07/solution.py:41 | `str(n)` of a natural number is its decimal digits, with no leading zero |
| `PyText.StrShape` | 2024/day-07/solution.py:41 | `str(n)` is an optional minus sign followed by digits |
| `PyText.ParseIntOfStr` | 2024/day-07/solution.py:41 | `int(str(n)) == n` |
| `PyText.ParseIntOfDigits` | 2024/day-07/solution.py:41 | A plain run of digits reads as its decimal value |
| `PyText.ParseIntOfNegDigits` | 2024/day-07/solution.py:41 | A minus sign followed by digits reads as the negated value |
| `PyText.InnerMinusRaises` | 2024/day-07/solution.py:41 | A `-` after the first character makes the text no integer |
| `Day05Py.IndexOfNoDup` | 2024/day-05/solution.py:58-62 | In a list without duplicates, `index` of the element at `i` is `i` |
| `Day05Py.InsertAt` | 2024/day-05/solution.py:58 | `insert(i, x)` puts `x` at position `i` and adds nothing else |
| `Day05Py.RemoveFirst` | 2024/day-05/solution.py:61 | `remove(x)` drops one element |
| `Day05Py.Without` | 2024/day-05/solution.py:59-62 | The list without `x` no longer holds `x` |
| `Day05Py.StepFacts` | 2024/day-05/solution.py:50-62 | An applied rule leaves no duplicates, adds exactly x and y, and puts x before y |
| `Day05Py.InsertBefore` | 2024/day-05/solution.py:56-58 | An absent x is inserted immediately before y, and the order of the others is kept |
| `Day05Py.StepPlacesBeforeY` | 2024/day-05/solution.py:56-62 | An absent x, or one found after y, ends up immediately before y; the relative order of the other elements is unchanged |
| `Day05Py.StepIgnores` | 2024/day-05/solution.py:50 | A rule whose x or y is not in the update changes nothing |
| `Day05Py.OrderingFacts` | 2024/day-05/solution.py:46-64 | The output has no duplicates; it holds exactly the pages named by the rules that concern the update, all of them pages of the update |
| `Day05Py.OrderingLastRule` | 2024/day-05/solution.py:49-62 | After the last applied rule (x, y), x precedes y in the output |
| `Day05Py.ApplyRule` | 2024/day-05/solution.py:50-62 | The in-place `append`, `insert` and `remove` of one loop pass build the specified step |
| `Day05Py.ParseOrdering` | 2024/day-05/solution.py:46-64 | `parse_ordering` returns the specified ordering, with no duplicates and only pages of the update |
| `Day05Py.InOrderFacts` | 2024/day-05/solution.py:97 | An update equal to its computed order repeats no page, and each of its pages is named by a rule that concerns it |
| `Day05Py.UncoveredNotInOrder` | 2024/day-05/solution.py:97 | An update with a page that no rule concerns is never counted |
| `Day05Py.SumMiddles` | 2024/day-05/solution.py:94-100 | The loop sums `update[len(update) // 2]` over the updates equal to their computed order |
| `Day05Py.ParseInput` | 2024/day-05/solution.py:67-84 | `parse_input` returns the rules before the first blank line and the updates after it, or raises the first ValueError |
| `Day05Py.RuleLineParses` | 2024/day-05/solution.py:78-81 | A rules-section line of two numbers separated by a vertical bar appends that rule |
| `Day05Py.UpdateLineParses` | 2024/day-05/solution.py:82 | A line `a,b,c` in the updates section appends the update [a, b, c] |
| `Day05Py.BlankLineParses` | 2024/day-05/solution.py:74-76 | A blank line ends the rules section and adds nothing |
| `Day05Py.RuleLinesParse` | 2024/day-05/solution.py:72-81 | Consecutive rule lines append their rules in order |
| `Day05Py.UpdateLinesParse` | 2024/day-05/solution.py:72-82 | Consecutive update lines append their updates in order |
| `Day05Py.ParseInputLines` | 2024/day-05/solution.py:67-84 | Parsing rule lines, a blank line, and updates written as `a,b,c` gives back exactly those rules and updates |
| `Day05Py.Solve` | 2024/day-05/solution.py:87-101 | `main` raises the parser's exception, or returns the sum of the middle pages of the updates already in order |
| `Day06Py.AvatarToDirection` | 2024/day-06/solution.py:26-33 | An avatar maps to the direction at its own index in the tables; any other character raises ValueError |
| `Day06Py.DirectionToAvatar` | 2024/day-06/solution.py:36-43 | The inverse lookup: a direction maps to the avatar whose direction it is; anything else raises ValueError |
| `Day06Py.AvatarRoundTrip` | 2024/day-06/solution.py:26-43 | An avatar's direction converts back to the avatar |
| `Day06Py.ChooseDirection` | 2024/day-06/solution.py:70-77 | A heading turns to another heading; anything that is not a heading raises ValueError |
| `Day06Py.ChooseDirectionByIndex` | 2024/day-06/solution.py:77 | The turn is the next entry of `DIRECTIONS`, cyclically, so up, right, down and left follow each other |
| `Day06Py.FourTurns` | 2024/day-06/solution.py:22 | Four turns bring the guard back to its heading, and none of the first three does |
| `Day06Py.AvatarFrom` | 2024/day-06/solution.py:53-67 | The result is (-1, -1) exactly when no row has an avatar; otherwise the first row with one, and in it the first `^`, `>`, `v` or `<`, in that priority |
| `Day06Py.AvatarIn` | 2024/day-06/solution.py:54-59 | The position found is the first occurrence of the highest-priority avatar present, not the leftmost avatar |
| `Day06Py.FindAvatar` | 2024/day-06/solution.py:46-67 | The loop returns the specified position |
| `Day06Py.FindInRow` | 2024/day-06/solution.py:54-59 | The avatar loop over one row finds an avatar exactly when the row has one, at the specified position |
| `Day06Py.AvatarInFrom` | 2024/day-06/solution.py:54-59 | Avatars absent from the row do not change which one is found |
| `Day06Py.WalkGoesOn` | 2024/day-06/solution.py:101-105 | A guard inside the grid whose walk raises nothing tests the cell ahead |
| `Day06Py.WalkTurns` | 2024/day-06/solution.py:105-107 | In front of an obstacle the guard turns and records nothing |
| `Day06Py.WalkSteps` | 2024/day-06/solution.py:109-111 | With the cell ahead free, the guard records its cell and steps |
| `Day06Py.WalkIsPath` | 2024/day-06/solution.py:94-111 | Every recorded cell is in bounds, consecutive cells are one unit step apart, and the first is the start |
| `Day06Py.WalkNonEmpty` | 2024/day-06/solution.py:101-109 | The walk records something exactly when the guard starts inside the grid |
| `Day06Py.MoveGuard` | 2024/day-06/solution.py:80-111 | `move_guard`, with a pass bound, returns the specified walk or exception |
| `Day06Py.Patrol` | 2024/day-06/solution.py:94-111 | The `while True` loop computes the specified walk, with obstacles tested only against the upper bounds |
| `Day06Py.StartFound` | 2024/day-06/solution.py:87-89 | A start that raises nothing is the cell `find_avatar` found |
| `Day06Py.MoveGuardIsPath` | 2024/day-06/solution.py:80-111 | On success the walk is a unit-step path of in-bounds cells from the guard, empty only when the guard's column lies beyond the first row |
| `Day06Py.NoAvatarRaises` | 2024/day-06/solution.py:64-67 | With no guard on the grid, `move_guard` raises ValueError rather than returning an empty walk |
| `Day06Py.TopEdgeWraps` | 2024/day-06/solution.py:105-107 | A guard facing up from the top row reads the bottom row through index -1, turns, and records a second cell |
| `Day06Py.NoGuardCorrected` | 2024/day-06/solution.py:64-66 | Corrected: a grid without a guard gives an empty walk, as the comment intends |
| `Day06Py.CorrectedLeaves` | 2024/day-06/solution.py:105 | Corrected: a guard facing off the grid records its own cell and leaves |
| `Day07Py.Mul` | 2024/day-07/solution.py:14-21 | The product of non-negative numbers is non-negative |
| `Day07Py.Add` | 2024/day-07/solution.py:24-31 | The sum of non-negative numbers is at least each of them |
| `Day07Py.Concat` | 2024/day-07/solution.py:34-41 | Concatenation is at least each of its operands |
| `Day07Py.CatLiteral` | 2024/day-07/solution.py:41 | `int(str(a) + str(b))` reads the joined text as it stands |
| `Day07Py.CatOfNegative` | 2024/day-07/solution.py:41 | A negative left operand keeps its sign: `cat(a, b) == -cat(-a, b)` |
| `Day07Py.Cat` | 2024/day-07/solution.py:34-41 | For non-negative a and b, `cat(a, b)` is a times 10 to the number of digits of b, plus b; a negative right operand leaves a `-` inside the text, so `int` raises ValueError |
| `Day07Py.Either` | 2024/day-07/solution.py:62-64 | The loop over the operations returns the first outcome that is not false |
| `Day07Py.TryThree` | 2024/day-07/solution.py:62-64 | With three operations that succeed, the loop tries their results in the order mul, add, cat |
| `Day07Py.OperationsAreArithmetic` | 2024/day-07/solution.py:62 | `[mul, add, cat]` are multiplication, addition and concatenation on non-negative numbers |
| `Day07Py.OperateDecides` | 2024/day-07/solution.py:44-64 | From a positive value and positive fields, `operate` is true exactly when some left-to-right choice of operators reaches the target |
| `Day07Py.Operate` | 2024/day-07/solution.py:44-64 | `operate` over `[mul, add, cat]`: from a positive value and positive fields, and from 0 on at least two positive fields, it is true exactly when some left-to-right choice of operators reaches the target |
| `Day07Py.ZeroStartsOver` | 2024/day-07/solution.py:55-60 | For "5: 3 0 5", the product 0 restarts from the last field alone and raises IndexError, although 3 * 0 + 5 reaches 5 |
| `Day07Py.OperateFromDecides` | 2024/day-07/solution.py:44-64 | Corrected: `operate` without the restart decides the left-to-right reachability for all non-negative numbers |
| `Day07Py.OperateCorrectedDecides` | 2024/day-07/solution.py:44-64 | Corrected: on a line, the result is true exactly when some choice of operators reaches the target, zeros included |
| `Day07Py.Tally` | 2024/day-07/solution.py:78-87 | The running sum after a line: the first exception wins, and otherwise the line's value is added |
| `Day07Py.RunStep` | 2024/day-07/solution.py:74-87 | One more line either ends the run with its exception or adds its value |
| `Day07Py.FirstExceptionEnds` | 2024/day-07/solution.py:74-87 | After an uncaught exception, later lines do not change the outcome |
| `Day07Py.AddLine` | 2024/day-07/solution.py:75-87 | One pass of the loop body computes the line's specified contribution |
| `Day07Py.Calibrate` | 2024/day-07/solution.py:72-91 | The loop of `main` computes the specified total, or the exception that stops it |
| `Day07Py.EquationSplits` | 2024/day-07/solution.py:79 | The colon splits a written equation into the target's text and the numbers' text |
| `Day07Py.NumbersOfText` | 2024/day-07/solution.py:81 | `list(map(int, text.split()))` reads the written numbers back |
| `Day07Py.EquationOfLine` | 2024/day-07/solution.py:79-81 | Reading a written equation gives back its target and numbers |
| `Day07Py.LineOfEquation` | 2024/day-07/solution.py:78-84 | A well-formed line adds its target exactly when some choice of operators reaches it |
| `Day07Py.RunOfLines` | 2024/day-07/solution.py:74-84 | A run over lines that all succeed adds up their values |
| `Day07Py.CalibrationOfEquations` | 2024/day-07/solution.py:67-91 | On well-formed equations, `main` prints the sum of the targets that can be reached |
| `Day07Py.MissingColonStops` | 2024/day-07/solution.py:79-80 | A line without a colon raises IndexError at `values[1]`, which `except ValueError` does not catch, so the run stops |
| `Day08Py.DefaultAppend` | 2024/day-08/solution.py:24-30 | Appending to a `defaultdict(list)` adds the key if needed, appends to its list, and leaves every other list unchanged |
| `Day08Py.ScanCell` | 2024/day-08/solution.py:28-30 | Scanning one more cell keeps the lists exact: an antenna is appended under its character, and a `.` changes nothing |
| `Day08Py.NextRow` | 2024/day-08/solution.py:26-27 | The end of a row is the start of the next one in row-major order |
| `Day08Py.ScanRow` | 2024/day-08/solution.py:27-30 | The loop over one row keeps the lists exact; a row shorter than the first raises IndexError |
| `Day08Py.MapGrid` | 2024/day-08/solution.py:23-32 | `map_grid` lists every non-`.` cell under its character in row-major order, and `.` is never a key; a row shorter than the first raises IndexError |
| `Day08Py.CellInOneList` | 2024/day-08/solution.py:26-30 | Each antenna cell is listed under its own character and under no other |
| `Day08Py.OrderedUnique` | 2024/day-08/solution.py:26-30 | A strictly row-major list is determined by the cells it holds |
| `Day08Py.MappedUnique` | 2024/day-08/solution.py:23-32 | Only one map fits the description of `map_grid`'s result |
| `Day08Py.RowNodesIff` | 2024/day-08/solution.py:48-57 | The inner pairs of one first element add exactly the in-bounds reflections of those pairs |
| `Day08Py.ListNodesIff` | 2024/day-08/solution.py:48-57 | `combinations(ps, 2)` adds exactly the in-bounds reflections of the pairs with the first index before the second |
| `Day08Py.PairOrderIrrelevant` | 2024/day-08/solution.py:48-57 | The pairs of `combinations` give the same antinodes as all ordered pairs of distinct indices, so pair order is irrelevant |
| `Day08Py.Reflect` | 2024/day-08/solution.py:49-55 | The candidate `a + (a - b)` lies in line with `a` and `b`, with `a` halfway between it and `b`; it is `a` itself only when `b` is |
| `Day08Py.PairNodes` | 2024/day-08/solution.py:49-57 | A pair adds nothing but its two candidates, and only those inside the grid |
| `Day08Py.AddPair` | 2024/day-08/solution.py:49-57 | A pair adds its candidates 2a - b and 2b - a exactly when they fall inside the grid |
| `Day08Py.AddRow` | 2024/day-08/solution.py:48-57 | The pairs `(ps[k], ps[m])` with `m > k` add their in-bounds candidates |
| `Day08Py.AddPairs` | 2024/day-08/solution.py:48-57 | The loop over `combinations(ps, 2)` adds the in-bounds candidates of every pair |
| `Day08Py.DistinctCells` | 2024/day-08/solution.py:48 | Two positions of one strictly ordered list are different cells |
| `Day08Py.MappedAntinodes` | 2024/day-08/solution.py:45-57 | A cell comes from some frequency's pairs exactly when it is an in-bounds reflection of one antenna over another of the same character |
| `Day08Py.Antinodes` | 2024/day-08/solution.py:43-57 | The antinode set holds exactly the in-bounds reflections of one antenna over another of the same character, at most rows times cols cells; an empty grid or a short row raises IndexError |
| `Day08Py.CellsBound` | 2024/day-08/solution.py:67 | A set of cells of a rows by cols grid has at most rows times cols elements |

## Definitions

Some source functions are modelled by a specification function that the
methods are proved against and the lemmas above are about. Such a function
has no contract of its own, so it has no row; its properties are in the rows
named here.

- `dist` and `sim` (2024/day-01/solution.py:18-19): `Day01Py.Dist` and `Day01Py.Sim`. `sim` is described by `Day01Py.SimOfSorted`, `Day01Py.SimOfSortedRight`, `Day01Py.SimInsert` and `Day01Py.SimIgnoresAbsent`, and the C loop is tied to it by `Day01C.Similarity`.
- `dampened_safe` (2024/day-02/solution.py:17-22): `Day02Py.DampenedSafe`, described by `Day02Py.DampenedSafeIff` and `Day02Py.SafeImpliesDampened`.
- The day 3 part 1 total (2024/day-03/solution.c:34-127): `Day03C.Total`, tied to the C loop by `Day03C.ParseInstructions`. The two buffer rewrites of `recover_instructions` (2024/day-03/solution.c:140-154): `Day03C.Splice` and `Day03C.Truncate`, described by `Day03C.SpliceShape`, `Day03C.SpliceString` and `Day03C.TruncateString`.
- `ordering` (2024/day-05/solution.py:46-64): `Day05Py.Step` for one rule and `Day05Py.Ordering` for the loop, described by `Day05Py.StepFacts`, `Day05Py.InsertBefore`, `Day05Py.StepPlacesBeforeY`, `Day05Py.StepIgnores`, `Day05Py.OrderingFacts` and `Day05Py.OrderingLastRule`.
- `parse_input` (2024/day-05/solution.py:67-84): `Day05Py.ParseLine` for one line and `Day05Py.ParseFrom` for the loop, described by `Day05Py.RuleLineParses`, `Day05Py.UpdateLineParses`, `Day05Py.BlankLineParses` and `Day05Py.ParseInputLines`.
- `move_guard` (2024/day-06/solution.py:80-111): `Day06Py.Start` for the start cell, `Day06Py.Blocked` for the obstacle test, `Day06Py.Walk` for the loop and `Day06Py.MoveGuardSpec` for the whole. They are described by `Day06Py.StartFound`, `Day06Py.WalkGoesOn`, `Day06Py.WalkTurns`, `Day06Py.WalkSteps`, `Day06Py.WalkIsPath`, `Day06Py.WalkNonEmpty` and `Day06Py.MoveGuardIsPath`.
- `operate` (2024/day-07/solution.py:44-64): `Day07Py.OperateWith` for the recursion and `Day07Py.TryEach` for the `for operation in ...` loop, described by `Day07Py.Operate`, `Day07Py.OperateDecides`, `Day07Py.TryThree` and `Day07Py.ZeroStartsOver`.
- The body of `main`'s loop (2024/day-07/solution.py:75-87): `Day07Py.Equation` for the parsing and `Day07Py.LineSum` for what one line adds, described by `Day07Py.EquationOfLine`, `Day07Py.LineOfEquation` and `Day07Py.MissingColonStops`.

## Left out

- File and console I/O: `fopen`, `fread`, `getline`, `fscanf`, `open(...).readlines()`, `print` and `printf`. The parsed values arrive as parameters: the pairs of day 1, the reports of day 2, the buffer of day 3, the lines of days 5 and 7, and the grids of days 4, 6 and 8.
- `parse_levels` (2024/day-02/solution.c:117-125) is not modelled: it relies on `strtok` and `strtol`. The level list is given.
- `2024/day-03/solution.py` is not part of this model: it is a wrapper over the regular-expression library. `Day03C.MulAtIsRegex` shows that the C state machine accepts exactly what its expression matches.
- Day 3's `main` does not model how the buffer is sized from `ftell`, nor the write at `data_buf[pos + 1]` one past the end of the array. The buffer is given with its terminating NUL.
- `malloc`, `realloc` and `free` are modelled only as "the capacity doubles and the contents are kept". The `exit(2)` on allocation failure is not modelled.
- `Day01C.Distance`, `Day01C.Similarity`, `Day03C.ParseInstructions`: C `long` arithmetic is unbounded here, so overflow of the sums and products is not modelled. `compareLong`'s truncation to `int` is modelled by `Day01C.CompareLongAsWritten` (see Findings); the sort relies on it only through `Day01C.ComparableAgrees`.
- `Day01C.Qsort`, `Day01C.Solve` promise the ascending order only when every two values of a column differ by an amount that fits in an `int`. Beyond that, `compareLong` as written is no consistent order (`Day01C.CompareLongTruncates`) and the C library leaves `qsort`'s result unspecified, so the model promises nothing there.
- `Day02C.CheckReport` requires at least one level. With none, `num - 1` wraps around in the C and sizes the array of changes with it.
- `Day04Py.Search`, `Day04Py.FindStr`, `Day04Py.FindXmas` require every row to be at least as wide as the columns they scan. The source would raise IndexError at a shorter row, such as a last line without its newline. The empty grid and the empty word are modelled: they return IndexError.
- `Day05Py.SumMiddles` requires non-empty updates. `parse_input` never produces an empty one, and `Day05Py.Solve` covers the case anyway.
- Day 5's `main` parses its built-in `TEST_INPUT` instead of the file. `Day05Py.Solve` takes the lines as a parameter, so it covers both.
- `Day06Py.MoveGuard`, `Day06Py.Patrol`: the `while True` loop has no cycle detection. The model bounds it by `fuel` passes and answers `None` when the fuel runs out; a guard in a loop therefore never yields a result.
- Day 6's `direction_to_avatar` call is commented out in `move_guard`. So is the debug code of day 8 (2024/day-08/solution.py:59-64) and of day 6's `find_avatar` (2024/day-06/solution.py:60-62).
- `Day07Py.Mul`, `Day07Py.Add`: these are `a*b` and `a+b`. Their only partner property is their role in `Day07Py.OperationsAreArithmetic`.
- Unicode digits: Python `int` accepts non-ASCII decimal digits. `PyText.ParseInt` accepts only ASCII digits, with optional sign, surrounding whitespace and single underscores between digits.
- The test fixtures and their expected answers are not evaluated: 18 XMAS, 41 guard positions, 14 antinodes, and the day 5 and day 7 examples.
- `Day08Py.Antinodes`: the iteration order of the `defaultdict` keys is not modelled. The keys are taken from a set in any order, and the resulting set does not depend on the order.
- `Day08Py.MapGrid` returns a map from characters to lists. The insertion order of the `defaultdict`'s keys is not kept.

## Findings

| source | as written | input that shows it | evidently intended | confidence | as-written member | corrected member |
|---|---|---|---|---|---|---|
| 2024/day-01/solution.c:18-20 | `compareLong` returns the `long` difference through an `int`, which keeps only the low 32 bits | a = 2^32, b = 0 compares as equal | a three-way comparison whose sign follows a - b | not executed | `Day01C.CompareLongTruncates` | `Day01C.CompareLong` |
| 2024/day-06/solution.py:64-67 | with no avatar, `find_avatar` returns (-1, -1); `grid[-1][-1]` is the bottom-right cell, and `avatar_to_direction` raises ValueError | a grid with no `^>v<`, such as `[".."]` | an empty walk, as the comment says | not executed | `Day06Py.NoAvatarRaises` | `Day06Py.NoGuardCorrected` |
| 2024/day-06/solution.py:105 | the obstacle test checks only the upper bounds, so index -1 reads the last row or column | `["^.", "#."]`: the guard turns on the bottom-row `#` and records (0, 1) | the guard leaves the grid at once and records only (0, 0) | not executed | `Day06Py.TopEdgeWraps` | `Day06Py.CorrectedLeaves` |
| 2024/day-07/solution.py:55-60 | an accumulated 0 is taken for the start of a line, so `operate` combines the next two fields | the line `5: 3 0 5`: 3 * 0 gives 0, then `fields[1]` of `[5]` raises an uncaught IndexError | combining 0 with the next field, which reaches 5 | not executed | `Day07Py.ZeroStartsOver` | `Day07Py.OperateCorrectedDecides` |
