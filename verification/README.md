# Funding runway ledger, modelled in Dafny

`funding-runway` (main.c) reads a CSV ledger of dated cash movements. The first line
is the header: its columns are matched to the roles date, amount, type, category and
(optionally) restricted. Every later line is either skipped or counted as one
transaction. A counted transaction is classified as an inflow or an outflow, added
to the inflow or outflow total, and booked into a table of months (keyed by the
first seven characters of the date). An outflow is also booked into a table of
categories, and into the restricted total when its restricted cell is truthy. After
the file is read, the months are sorted by key and the categories by descending
outflow. From the sorted months the program computes the available cash, average
monthly burn, average monthly net and the runway in months.

The model follows the program's structure, one module per concern:

- `Text`: `trim`, `tolower`, `strncpy`-style truncation and `strcmp` ordering.
- `Csv`: `parse_csv_line`, as a method over the 16 field buffers proved against a
  scanning function. A reference definition for quote-free lines (split on commas,
  cut each cell to 255 characters, trim) is proved equal to it.
- `Header`: `normalize_key` and the header-matching loop with its synonym lists.
- `Amount`: `parse_amount` and the part of `strtod` it relies on, computed exactly on
  the retained digits and dot.
- `Classify`: the keyword tests `is_inflow_type`, `is_outflow_type` and `is_truthy`,
  and the inflow/outflow decision of the row loop.
- `Sorting`: `qsort` on a prefix of an array (an insertion sort that promises only
  what `qsort` promises: sorted and a permutation).
- `Tables`: `MonthList`/`CategoryList` as classes over a growable array
  (`month_list_add`, `category_list_add`, capacity 0, 16, then doubling), their
  value-level upsert functions, and the two comparators.
- `Ledger`: one data row (`ProcessRow`/`Outcome`), the running totals (`Step`,
  `Fold`), the header line and the read loop (`Aggregate`).
- `Metrics`: available cash, the averaging window, the window loop, the averages and
  the runway.
- `Report`: the whole run after option parsing, and the figures that are printed.

Amounts are exact `real` numbers. Lines are `seq<char>`. The file arrives as a
sequence of lines, the cash options as reals, and `--as-of` as a string that is
empty when the option is absent.

Behaviours of main.c that the model keeps as written:

- Duplicate header matches: when several header columns match one role, the LAST
  of them wins, because each match assigns the index again (main.c:364-377).
- Only outflows are booked into the category table (main.c:440-446). Inflows reach
  only the month table.
- The category sort is `qsort` (main.c:452), which is not stable. Only "sorted by
  non-increasing outflow and a permutation" is promised, not insertion order on ties.
- An explicit type keyword keeps the amount as parsed, even a negative one. Only the
  sign fallback (no recognised keyword) takes the magnitude.
- An empty file is a success with no records. A missing header is detected only when
  there is a first line.
- `parse_amount` fails on a token whose retained characters begin with a dot not
  followed by a digit (`..5`), even though it contains a digit. So "ok iff a digit was
  seen" holds in one direction only.

## Model

| member | source | states |
|---|---|---|
| Text.Truncate | main.c:175-176 | copying at most n characters keeps a prefix of exactly min(length, n) characters, and the whole string when it fits |
| Text.Trim | main.c:43-56 | the trimmed string is `Trimmed(s)` |
| Text.TrimmedSpec | main.c:43-56 | `Trimmed(s)` is the stretch between the leading and the trailing runs of white space |
| Text.TrimmedUnchanged | main.c:43-56 | a string with no white space at either end is left as it is |
| Text.TrimmedIdempotent | main.c:43-56 | trimming twice is trimming once |
| Text.LexLessIrreflexive | main.c:207-211 | no month key sorts before itself under `strcmp` |
| Text.LexLessTransitive | main.c:207-211 | the `strcmp` order is transitive |
| Text.LexLessTotal | main.c:207-211 | two different keys are ordered exactly one way |
| Csv.ParseCsvLine | main.c:70-122 | the count is the number of scanned fields; the buffers hold those fields, then empty buffers |
| Csv.Put | main.c:91-117 | a character is appended to the field while it has room for it and the terminator, otherwise dropped; a field never reaches 256 characters |
| Csv.ScanFrom | main.c:80-119 | the scan keeps the fields already closed and ends with at least one more, never more than `max_fields` |
| Csv.CsvFields | main.c:70-122 | every line yields between 1 and `max_fields` fields |
| Csv.CsvFieldsBounded | main.c:70-122 | between 1 and 16 fields, each at most 255 characters and trimmed |
| Csv.PlainLineFields | main.c:80-122 | on a line without quotes, the fields are the comma-separated pieces of the text before the first newline or NUL (carriage returns dropped), each cut to 255 characters and trimmed, at most 16 of them |
| Csv.QuotedCommaExample | main.c:88-106 | `a,"b,c",d` gives `a`, `b,c`, `d`: a quoted comma does not split |
| Csv.EscapedQuoteExample | main.c:88-97 | `x,"a""b",y` gives `x`, `a"b`, `y`: a doubled quote inside quotes is one quote |
| Csv.WrittenLineFields | main.c:80-122 | cells that fit a buffer, hold no NUL or newline and are trimmed, written each as is (when free of quotes, commas and carriage returns) or between quotes with every quote doubled, and joined by commas, are read back as exactly those cells |
| Csv.SaidHiExample | main.c:88-106 | `x,"he said ""hi""",y` gives `x`, `he said "hi"` and `y` |
| Csv.NewlineEndsFrom | main.c:80-86 | from any position and in any state, inside quotes or not, the scan of a line never reads past its first newline |
| Csv.NewlineEnds | main.c:80-86 | a line has the fields of its text before the first newline, even when a quote is still open there |
| Csv.OpenQuoteNewlineExample | main.c:80-106 | `a,"b`, a newline, then `,c"` gives `a` and `b`: the open quote does not carry the field over the newline |
| Header.NormalizedKey | main.c:58-68 | the key is the folded, separator-free source cut to `dst_len - 1` characters: its length is that minimum, it is a prefix of `KeyChars(src)`, equal to it when it fits, and has no upper-case letter or separator |
| Header.KeyChars | main.c:60-66 | the lower-cased source with spaces, `_` and `-` dropped: never longer than the source, with no upper-case letter or separator |
| Header.NormalizeKey | main.c:58-68 | the loop produces `NormalizedKey(src, dstLen)` |
| Header.NormalizedKeyIdempotent | main.c:58-68 | normalising a key again changes nothing |
| Header.NormalizedKeyExample | main.c:58-68 | `Txn_Date` normalises to `txndate` |
| Header.RoleOfSynonyms | main.c:367-376 | a key has a role exactly when it is one of that role's synonyms, and none when it is in no synonym list |
| Header.RoleOf | main.c:367-376 | a key is given a role only when it is one of that role's synonyms |
| Header.HeaderRoles | main.c:364-366 | the role of each of the first `count` header fields is the role of its normalised key |
| Header.LastIndex | main.c:364-378 | the index found for a role holds that role and no later field does; none means no field does |
| Header.Set | main.c:368-376 | recording an index for one role leaves the other roles' indices unchanged |
| Header.ResolveIndices | main.c:364-378 | after the loop every role's index is the last field with that role |
| Header.IndicesOf | main.c:364-378 | the indices the header loop leaves: for every role, the last of the first n fields with that role |
| Header.IndicesByRole | main.c:364-378 | indices that agree with the last match for every role are `IndicesOf` |
| Header.Resolve | main.c:380-384 | columns are resolved exactly when date, amount, type and category were all found; restricted is optional |
| Header.ResolveLastMatch | main.c:364-384 | resolution fails exactly when a required role matches no field; otherwise each column is the last field carrying that role |
| Amount.HasDigitAppend | main.c:256-260 | `saw_digit` is set exactly when a digit has been kept |
| Amount.Retain | main.c:240-262 | the scan only appends to the buffer, stays within 63 characters, and a negative flag once set stays set |
| Amount.KeptChars | main.c:256-261 | the digits and dots of a token, in order: never longer than the token, and nothing else |
| Amount.RetainKeptChars | main.c:240-262 | while the buffer has room, the scan appends exactly the token's digits and dots, and ends negative exactly when it started so or the token contains `(` or `-` |
| Amount.RetainKept | main.c:256-261 | only digits and dots are kept |
| Amount.RetainSkips | main.c:246-255 | `)`, `+`, `$`, `,`, white space and any other character are dropped without effect |
| Amount.LeadingDigits | main.c:271 | `strtod` reads a maximal run of digits |
| Amount.Strtod | main.c:270-275 | on digits and dots, the number read is non-negative, and nothing is read exactly when the buffer is empty or starts with a dot not followed by a digit |
| Amount.StrtodNeedsDigit | main.c:265-275 | a number is read only from a buffer that holds a digit |
| Amount.StrtodNatDigits | main.c:271 | reading the decimal digits of n gives back n |
| Amount.StrtodDecimal | main.c:270-271 | `strtod` on digits, a dot and digits reads the integer part plus the fraction over the matching power of ten |
| Amount.AmountOfSpec | main.c:234-282 | when the digits and dots of the token fit the buffer, the token is accepted exactly when `strtod` reads a number from them, and the result is that number, negated exactly when the token contains `(` or `-` |
| Amount.AmountOf | main.c:234-282 | a token is accepted only when its retained buffer holds a digit |
| Amount.ParseAmount | main.c:234-282 | `ok` is whether `AmountOf` accepts the token; the value is its amount, or 0 when not ok |
| Amount.DollarsExample | main.c:253-262 | `$1,234.56` parses to 1234.56 |
| Amount.ParenthesesExample | main.c:242-248 | `(500)` parses to -500 |
| Amount.MinusExample | main.c:249-252 | `-12.5` parses to -12.5 |
| Amount.NotAvailableExample | main.c:265-268 | `n/a` has no digit and is rejected |
| Amount.DoubleDotExample | main.c:270-275 | `..5` keeps a digit but `strtod` reads nothing, so it is rejected |
| Classify.FoldedMatches | main.c:125-132 | folding to a 31-character buffer does not change which keyword a token matches |
| Classify.Folded | main.c:125-131 | the token lower-cased character by character and cut to 31 characters |
| Classify.IsTruthy | main.c:124-133 | true exactly when the lower-cased token is `yes`, `y`, `true` or `1` |
| Classify.IsInflowType | main.c:135-144 | true exactly when the lower-cased token is an inflow keyword |
| Classify.IsOutflowType | main.c:146-155 | true exactly when the lower-cased token is an outflow keyword |
| Classify.KeywordsDisjoint | main.c:135-155 | no token is both an inflow and an outflow type |
| Classify.KeywordsIgnoreCase | main.c:124-155 | tokens equal up to case classify alike |
| Classify.ClassifyFlow | main.c:415-426 | a keyword fixes the direction and keeps the amount; otherwise a negative amount is an outflow of its magnitude and a non-negative one an inflow of itself |
| Classify.ClassifyNet | main.c:415-426 | the signed amount of the result (inflow positive) is the parsed amount, negated only for an outflow keyword |
| Sorting.SortPrefix | main.c:451-452 | the first n elements end sorted by the comparison and are a permutation of what they were; the rest is untouched |
| Sorting.PermutationUnique | main.c:451 | rearranging a table with distinct keys keeps them distinct |
| Tables.Find | main.c:158-159 | the first entry with the key, or the length when there is none |
| Tables.Upsert | main.c:157-180 | the first entry with the key is merged, or a new entry is appended when no entry has it; other entries are unchanged |
| Tables.UpsertUnique | main.c:157-205 | an upsert keeps keys distinct |
| Tables.SumOfPermutation | main.c:451-452 | a rearranged table has the same column sums |
| Tables.UpsertSum | main.c:157-205 | an upsert adds its amount to the column sum, whether it merges or appends |
| Tables.MonthUpsert | main.c:157-180 | an unknown month is appended with its 7-character key and the amounts; the first entry of a known month gets the inflow and outflow added; no other month changes |
| Tables.MonthUpsertMerges | main.c:158-163 | the first entry of a known month gets the inflow and outflow added |
| Tables.MonthUpsertUnique | main.c:157-180 | month keys stay distinct |
| Tables.MonthUpsertSums | main.c:157-180 | the month table's inflow and outflow sums grow by the booked amounts |
| Tables.CategoryUpsertAsWritten | main.c:182-205 | the source's lookup: the full name is compared against stored names cut to 63 characters; a match gets the outflow added and its count raised, otherwise the cut name is appended |
| Tables.CategoryDuplicateAsWritten | main.c:182-205 | booking a name longer than 63 characters twice yields two entries with the same name |
| Tables.CategoryUpsert | main.c:182-205 | the name is cut to 63 characters before lookup; a new one is appended with count 1; the first entry of a known one gets the outflow added and its count raised by one; no other category changes |
| Tables.CategoryUpsertMerges | main.c:183-188 | a known category gets the outflow added and its count raised by one |
| Tables.CategoryUpsertUnique | main.c:182-205 | category names stay distinct |
| Tables.CategoryUpsertTwice | main.c:182-205 | booking the same name twice gives one entry with both outflows and count 2 |
| Tables.CategoryUpsertSums | main.c:182-205 | the category outflow sum grows by the outflow and the count sum by one |
| Tables.MonthLe | main.c:207-211 | `compare_months(x, y) <= 0`: `x`'s key equals `y`'s or comes before it under `strcmp` |
| Tables.CategoryLe | main.c:213-219 | `compare_categories(x, y) <= 0`: the three-way comparison puts the larger outflow first |
| Tables.MonthLeOrder | main.c:207-211 | the month comparison is a total preorder, as `qsort` needs |
| Tables.CategoryLeOrder | main.c:213-219 | the category comparison is a total preorder |
| Tables.MonthsAscending | main.c:207-211 | months sorted by key with distinct keys are strictly ascending |
| Tables.NextCap | main.c:165-166 | the next capacity is larger, and capacities stay 0, 16 or 16 doubled |
| Tables.MonthList.constructor | main.c:352 | an empty month table |
| Tables.MonthList.Add | main.c:157-180 | the entries become `MonthUpsert` of the old entries |
| Tables.MonthList.Push | main.c:165-179 | the new month is appended, growing the array when full |
| Tables.MonthList.Grow | main.c:165-174 | the array is replaced by one of the next capacity holding the same entries |
| Tables.MonthList.Sort | main.c:451 | the entries end sorted by month key and are a permutation of the old ones |
| Tables.CategoryList.constructor | main.c:353 | an empty category table |
| Tables.CategoryList.Add | main.c:182-205 | the entries become `CategoryUpsert` of the old entries |
| Tables.CategoryList.Push | main.c:190-204 | the new category is appended, growing the array when full |
| Tables.CategoryList.Grow | main.c:190-199 | the array is replaced by one of the next capacity holding the same entries |
| Tables.CategoryList.Sort | main.c:452 | the entries end sorted by non-increasing outflow and are a permutation of the old ones |
| Ledger.FieldCount | main.c:362 | a line always yields between 1 and 16 fields |
| Ledger.Buffers | main.c:76-78 | the buffers past the returned count are empty |
| Ledger.Outcome | main.c:388-432 | a row is skipped exactly when the date or amount column is missing, the amount is rejected, the date is shorter than 7 characters, or its month is after `as_of`; a counted row has the date's first 7 characters as month, is classified by `ClassifyFlow`, has the category cell as category when that column is present and the cell non-empty and `Uncategorized` otherwise, and is restricted exactly when the restricted column is present and its cell is truthy |
| Ledger.ProcessRow | main.c:388-432 | the loop body on the buffers gives `Outcome` |
| Ledger.LineOutcome | main.c:361-432 | a line counted as a record has a 7-character month and a non-empty category |
| Ledger.Step | main.c:388-446 | each row bumps exactly one of the two counters; a skip changes nothing else; an inflow adds its amount to the inflow total and its month, leaving the outflow and restricted totals and the categories alone; an outflow adds its amount to the outflow total, its month and its category, and to the restricted total exactly when it is restricted, leaving the inflow total alone |
| Ledger.StepConsistent | main.c:434-446 | one row keeps every total equal to its table's column sum and the keys distinct |
| Ledger.Fold | main.c:361-447 | records plus skipped rows grow by the number of data lines |
| Ledger.FoldConsistent | main.c:361-447 | the read loop keeps the totals equal to the table sums |
| Ledger.HeaderColumns | main.c:363-385 | resolved columns always index one of the 16 buffers |
| Ledger.TallyOf | main.c:361-447 | an empty file gives zero records; the file fails exactly when its header lacks a required column; otherwise every line after the header is either a record or skipped |
| Ledger.TallyConsistent | main.c:434-446 | after the file, `total_inflow` is the month inflow sum, `total_outflow` both the month and the category outflow sums, and no key repeats |
| Ledger.ReadHeader | main.c:362-385 | the header line gives `HeaderColumns` |
| Ledger.Book | main.c:434-446 | the counters, totals and tables change as `Step` says |
| Ledger.BookTables | main.c:436-446 | an inflow updates only its month; an outflow updates its month and its category |
| Ledger.Tabulate | main.c:361-447 | the loop over the data lines ends in `Fold` of them |
| Ledger.SortTables | main.c:451-452 | after the sorts, months are strictly ascending and categories by non-increasing outflow, each a permutation of the table |
| Ledger.Aggregate | main.c:341-452 | succeeds exactly when `TallyOf` does, with its counters and totals and sorted permutations of its tables |
| Metrics.AvailableCash | main.c:455-456 | starting less reserved cash, clamped below at 0 |
| Metrics.WindowStart | main.c:458-461 | the window starts after all but the last `window` months, or at 0 when the window is not positive or not smaller than the month count |
| Metrics.Burn | main.c:471-474 | a month adds to the burn its shortfall `-net` when its net is negative, and nothing otherwise |
| Metrics.BurnCount | main.c:463-475 | at most the number of months |
| Metrics.BurnSumSign | main.c:463-475 | total burn (`SumOf` over `Burn`) is non-negative, and positive exactly when the burn count is, which is when some month has a negative net |
| Metrics.NetSumTotals | main.c:454-470 | the sum of monthly nets (`SumOf` over `MonthNet`) is total inflow less total outflow |
| Metrics.WindowTotals | main.c:463-475 | the loop sums burn and net over the window and counts them |
| Metrics.Mean | main.c:477-478 | the mean times the count is the total, or 0 for no items |
| Metrics.AverageBurn | main.c:477 | non-negative, positive exactly when a window month has a negative net, and times the burn count it is the burn total |
| Metrics.AverageNet | main.c:478 | times the number of months it is the net total, or 0 over no months |
| Metrics.Runway | main.c:479 | runway times average burn is the available cash when there is burn, else 0 |
| Metrics.RunwayExample | main.c:454-479 | a deficit month of 1000 and a surplus month with 10000 available give burn 1000 and runway 10 |
| Report.Recent | main.c:499-503 | the last six months in order, or all of them |
| Report.Top | main.c:505-510 | the first five categories; once sorted, none of the others has a larger outflow |
| Report.FiguresOf | main.c:458-479 | the averages cover the last `window` months, or all of them when the window is not positive or not smaller than the month count, and average burn is positive exactly when one of those months has a deficit |
| Report.SortedTablesKeepTotals | main.c:451-454 | after sorting, the monthly nets still sum to the net and the category outflows to the outflow total |
| Report.Compute | main.c:451-479 | the figures computed by the window loop are `FiguresOf` the summary |
| Report.Run | main.c:341-479 | the run succeeds exactly when the header resolves; its counters and totals are `TallyOf`'s, its months strictly ascending by key and its categories sorted by non-increasing outflow, each a permutation of the tallied table, and its figures are `FiguresOf` the summary |

## Left out

- Command-line parsing (main.c:283-339) is not modelled: `--file`, `--starting-cash`, `--reserved-cash`, `--window`, `--as-of`, `--json`, `--help`, the `YYYY-MM` check of `--as-of`, and the reading of `--starting-cash` and `--reserved-cash` with `parse_amount` (main.c:296-310), which therefore accepts `$10,000` or `(500)` there and fails the run on a token it rejects. `Report.Run` takes these values already parsed.
- `print_usage`, the text report and the JSON file (main.c:221-232, 481-563) are output. Only the figures they print (`Report.Figures`, `Recent`, `Top`) are modelled.
- Opening and reading the file is not modelled. The `fgets` split of lines longer than 2047 characters into several lines is not modelled: the model receives whole lines.
- Allocation failure in `realloc` (exit with a message) and the final `free` are not modelled. The arrays always grow.
- Floating point: amounts and sums are exact reals. Rounding in `strtod` and in the additions is not captured, and neither are the `%.2f` formats.
- `strtod` is modelled only on what reaches it: a buffer of digits and dots. Exponents, hexadecimal and `inf`/`nan` cannot occur there.
- Strings are sequences of characters, and each `char` stands for one C byte. The field, category-name and keyword limits (255, 63 and 31, at main.c:91, 200 and 129-150) count bytes, so a multi-byte UTF-8 text would be cut at a different place than the model cuts it; encodings are not modelled. A C string ends at its first NUL. That matters only for the line, where `Csv.Content` stops at it. Header keys, amounts and keywords are fields, and fields never contain a NUL.
- The row loop's `header_parsed` flag is replaced by treating the first line apart from the rest. The effect is the same.
- Tables.MonthUpsertUnique: requires a month of at most 7 characters, which every caller passes (the date's first 7 characters). A longer month would be stored truncated and could repeat a key, as in the category finding below.
- Tables.CategoryList.Add: models the corrected lookup (`Tables.CategoryUpsert`), not the lookup as written (see Findings).
- Amount.AmountOfSpec: stated for tokens whose digits and dots fit the 63-character buffer. A longer token is cut by the scan; `Amount.Retain` still bounds it and keeps its sign rule.
- Ledger.Step, Ledger.Book, Ledger.Aggregate, Report.Run: file outflows through the corrected category lookup (`Tables.CategoryUpsert`), so for a category name of 64 or more characters they merge where `category_list_add` as written (main.c:184) appends a duplicate entry; see the Findings row.
- Ledger.TallyConsistent: the no-repeated-key part holds for the corrected category lookup (`Tables.CategoryUpsert`), not for `category_list_add` as written (see Findings). The sums hold either way.
- Sorting.SortPrefix: promises what `qsort` promises, not its particular order among equal elements.

## Findings

| source | as written | input that shows it | evidently intended | confidence | as-written member | corrected member |
|---|---|---|---|---|---|---|
| main.c:182-205 | `category_list_add` compares the full name against the stored names, but stores a new name cut to 63 characters | two outflows whose category is the same 64-character name: the second finds no match, because the stored name is the truncated one, and appends a second entry with the same name | one entry per category name as stored, with the outflows and counts merged | not executed | Tables.CategoryUpsertAsWritten, Tables.CategoryDuplicateAsWritten | Tables.CategoryUpsert, Tables.CategoryUpsertUnique |
