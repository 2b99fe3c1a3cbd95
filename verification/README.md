# Intraday equity brokerage report — a Dafny model

`brockerage_intra_equity.py` reads a table of trades (one row per `SL_N0`:
symbol, lot size, number of lots, buy and sell premium). For each row it asks
an online brokerage calculator for the charges, decodes the displayed rupee
amounts and works out the charges as a percentage of the turnover. It then
collects the rows as they complete, sorts them by `SL_N0` and writes a
summary workbook. Two other files are written too: a parameter workbook and
a time-stamped copy of the input.

This project models the pure part of that pipeline and proves properties of
it:

- `Currency` decodes the calculator's display strings (`clean_value`).
  `Decimal` models Python's `float(str)` and `int(str)` on decimal
  literals, as `coefficient * 10^exponent`. `Text` holds the character classes and digit
  strings both rely on.
- `Charges` assembles one quote (`calculate_brokerage` after the page is
  read): the decoded amounts, the turnover, the unrounded percentage, and the
  ten-entry result dictionary. Every failure gives `None`.
- `Rows` is `process_row`. It converts the cells, sends the quote with
  quantity `lot_size * no_of_lots`, computes the premium columns, and turns
  the charge values that pass `value.replace(".", "", 1).isdigit()` into
  floats.
- `Aggregate` is the collection step. Outcomes arrive in any order, failed
  rows are dropped, and Python's stable sort orders the rest by `SL_N0`.
- `Files` holds the file names: `find_input_file`, the copy
  `{base}_{timestamp}{ext}`, the CSV/Excel choice, the `%Y%m%d_%H%M%S`
  stamp, `{symbol}_parameter.xlsx` and
  `{symbol}SUMMARY_REPORT{timestamp}_intra_equity.xlsx`.
- `Pipeline` is `process_excel_file` as a whole.

Every row opens its own browser session, so the calculator is a parameter
indexed by the row's position: `session(i)` is a function
`Request -> Option<Scrape>` for the row at position `i`. `None` stands for any
failure of that session's start-up, loading or element lookup. Two rows that
ask for the same quote may therefore still fare differently. Python's
`round(p, 3)` followed by `str` is a parameter too, `render: real -> string`.
The reader's result, the two `datetime.now()` stamps and the order in which
rows complete are all inputs.

A note on the code as written: the `"UNKNOWN"` fallback for the symbol
(line 173) can never name a file. A table without a `SYMBOL` column fails
at the column selection on lines 177-178, so the run returns `(None, None)`.
An empty table with a `SYMBOL` column fails at `iloc[0]`.
`Pipeline.ProcessExcelFile` follows the code: a run succeeds exactly when the
file was read, all seven columns are present and there is at least one row.

## Model

| member | source | states |
|---|---|---|
| Currency.Clean | brockerage_intra_equity.py:86 | the result is no longer than the input |
| Currency.CleanRemovesNoise | brockerage_intra_equity.py:86 | no `₹` and no `,` is left after cleaning |
| Currency.CleanKeepsPlain | brockerage_intra_equity.py:86 | a string with neither character is unchanged |
| Currency.CleanAppend | brockerage_intra_equity.py:86 | cleaning distributes over concatenation, so exactly the two characters are deleted and the rest keep their order |
| Currency.CleanIdempotent | brockerage_intra_equity.py:86 | cleaning twice is cleaning once |
| Currency.CleanGroup | brockerage_intra_equity.py:86 | digits grouped in threes with commas clean back to the digits |
| Currency.DecodeFormatRupees | brockerage_intra_equity.py:85-86 | every amount displayed as `₹d,ddd.pp` decodes to exactly that number of rupees |
| Currency.DecodeExample | brockerage_intra_equity.py:85-86 | `₹1,234.56` decodes to 1234.56 |
| Currency.DecodeZero | brockerage_intra_equity.py:85-86 | `₹0.00` decodes to 0 |
| Currency.DecodePlain | brockerage_intra_equity.py:85-86 | the bare `1234.56` decodes to the same amount as `₹1,234.56` |
| Currency.DecodeRejectsEmpty | brockerage_intra_equity.py:85-86 | the empty string and a lone `₹` are decoding errors, not 0 |
| Currency.DecodeRejectsPoint | brockerage_intra_equity.py:85-86 | a lone `.` is a decoding error |
| Currency.DecodeRejectsText | brockerage_intra_equity.py:85-86 | `N/A` is a decoding error |
| Currency.DecodeRejectsSeparator | brockerage_intra_equity.py:85-86 | a value preceded by the ASCII separator 0x1C does not decode: `float()` strips only white space |
| Currency.FormatExample | brockerage_intra_equity.py:85-86 | 123456 paise display as `₹1,234.56` |
| Decimal.ParseRender | brockerage_intra_equity.py:86 | `float()` reads a canonically spelled decimal back exactly, sign and exponent included |
| Decimal.IntIsFloat | brockerage_intra_equity.py:185-189 | every string `int()` accepts is accepted by `float()` with the same value |
| Decimal.RenderIntParses | brockerage_intra_equity.py:86 | the signed exponent digits read back as the exponent |
| Decimal.SplitSign | brockerage_intra_equity.py:86 | at most one leading `+` or `-` is removed, and the sign is negative exactly for `-` |
| Decimal.UnsignedNonNegative | brockerage_intra_equity.py:86 | a literal without a minus sign denotes a non-negative number |
| Charges.DecodeScrapeIs | brockerage_intra_equity.py:88-94 | the quote decodes to given amounts exactly when each of the seven strings decodes to the matching amount |
| Charges.DecodeScrapeFails | brockerage_intra_equity.py:88-94 | the quote fails to decode exactly when one of the seven strings does |
| Charges.Percent | brockerage_intra_equity.py:108 | percentage times turnover equals 100 times the sum |
| Charges.PercentOf | brockerage_intra_equity.py:82-108 | defined exactly when the turnover is non-zero; then percentage times turnover is 100 times the six-component sum |
| Charges.BrokeragePercentage | brockerage_intra_equity.py:82-108 | a percentage exists exactly when all seven strings decode and the turnover is non-zero |
| Charges.Lookup | brockerage_intra_equity.py:110-121 | a lookup fails exactly when no entry carries the key |
| Charges.LookupAt | brockerage_intra_equity.py:110-121 | with distinct keys, looking up an entry's key finds that entry's value |
| Charges.ChargeKeysDistinct | brockerage_intra_equity.py:110-121 | the ten result keys are pairwise distinct |
| Charges.ResultMapKeys | brockerage_intra_equity.py:110-121 | the result's keys are the ten column names, in insertion order, pairwise distinct |
| Charges.CalculateBrokerage | brockerage_intra_equity.py:18-130 | a result exists exactly when the page was read, all seven strings decode and the turnover is non-zero; the result is the map with `render(p) + "%"` |
| Charges.ResultComponents | brockerage_intra_equity.py:110-117 | by name, each of the six component columns and POINTS TO BREAKEVEN holds its scraped string unchanged |
| Charges.ResultColumns | brockerage_intra_equity.py:116-120 | by name, TOTAL TAX AND CHARGES and TOTAL BROKERAGE hold the same string, and BROKERAGE % is the rendered percentage followed by `%` |
| Charges.PercentageIgnoresTotal | brockerage_intra_equity.py:94-95 | replacing the scraped total by another decodable string leaves the percentage unchanged |
| Charges.UndecodableTotalFails | brockerage_intra_equity.py:94 | a total that does not decode still makes the quote fail |
| Charges.ZeroTurnoverFails | brockerage_intra_equity.py:108 | zero quantity or zero premium gives no result, whatever the page shows |
| Charges.PercentageNonNegative | brockerage_intra_equity.py:95-108 | non-negative components over a positive turnover give a non-negative percentage |
| Charges.WorkedQuote | brockerage_intra_equity.py:82-108 | 100 shares at 100 and 105 turn over 20500, so charges of 50 are 100·50/20500 percent |
| Rows.Trunc | brockerage_intra_equity.py:185-186 | `int()` of a float truncates toward zero |
| Rows.ToIntToFloat | brockerage_intra_equity.py:185-189 | where `int()` and `float()` both read an integer or text cell, they agree |
| Rows.RemoveFirstPoint | brockerage_intra_equity.py:207 | removing the first point shortens the string by at most one |
| Rows.RemovePointedPoint | brockerage_intra_equity.py:207 | for digits with one point, the first point is the one removed and the rest are digits |
| Rows.NumericStringShape | brockerage_intra_equity.py:207 | the test holds exactly for a non-empty digit run, or for digits with one point and at least one digit beside it |
| Rows.NumericStringAccepts | brockerage_intra_equity.py:207 | `12.5`, `7` and `5.` pass the test |
| Rows.NumericStringRejects | brockerage_intra_equity.py:207 | `.`, the empty string and `-1` do not |
| Rows.NumericStringRejectsTwoPoints | brockerage_intra_equity.py:207 | `1.2.3` does not: only the first point is removed |
| Rows.NumericStringRejectsRupee | brockerage_intra_equity.py:207 | `₹1.00` does not, so displayed amounts stay text |
| Rows.NumericStringParses | brockerage_intra_equity.py:207-208 | every string that passes is read by `float()` as a non-negative number, so the conversion never raises |
| Rows.ConvertCharge | brockerage_intra_equity.py:206-210 | a value becomes a float exactly when it passes the test, and otherwise is kept verbatim as text |
| Rows.PercentStaysText | brockerage_intra_equity.py:206-210 | a value ending in `%`, like BROKERAGE %, always stays text |
| Rows.UnconvertibleDropped | brockerage_intra_equity.py:185-190 | a row whose lot size, lot count, buy or sell value fails to convert is dropped, whatever the calculator shows |
| Rows.TotalPremium | brockerage_intra_equity.py:192 | TOTAL_PREMIUM_VALUE `(buy + sell) * no_of_lots * lot_size` equals the quote's turnover |
| Rows.ProcessRow | brockerage_intra_equity.py:184-212 | a row exists exactly when the conversions and the quote succeed; SL_N0, symbol, NO_OF_LOTS and TOTAL_LOT_SIZE are copied; LOT_SIZE is the converted value; PREMUIM_VALUE is buy plus sell; TOTAL_PREMIUM_VALUE is the turnover; the charges are the converted map |
| Rows.TotalLotSizeIgnored | brockerage_intra_equity.py:184-203 | changing the TOTAL_LOT_SIZE cell changes nothing but that column of the output |
| Rows.ZeroQuantityDropped | brockerage_intra_equity.py:191 | a row with no lots, an empty lot or zero premium is dropped |
| Rows.LookupConverted | brockerage_intra_equity.py:206-210 | a lookup by name in the converted map finds the converted value |
| Rows.RowChargeColumns | brockerage_intra_equity.py:206-210 | in a successful row the two total columns hold equal values, and BROKERAGE % is the rendered percentage with `%`, as text |
| Rows.RowColumns | brockerage_intra_equity.py:195-210 | every successful row has the same seventeen columns in the same order |
| Aggregate.Dispatch | brockerage_intra_equity.py:218 | one outcome per table row, in table order, each from processing that row at its own position |
| Aggregate.DispatchKeys | brockerage_intra_equity.py:196 | when processing keeps the record's SL_N0, each successful outcome carries the SL_N0 of the record at its position |
| Aggregate.Successes | brockerage_intra_equity.py:225-234 | no more rows are kept than outcomes arrived |
| Aggregate.SuccessesCount | brockerage_intra_equity.py:225-234 | each row is kept exactly as often as it arrived; failures vanish |
| Aggregate.SuccessesPermute | brockerage_intra_equity.py:221-234 | rearranging the arrivals rearranges the kept rows |
| Aggregate.Insert | brockerage_intra_equity.py:237 | insertion adds exactly the one row |
| Aggregate.InsertAtLeast | brockerage_intra_equity.py:237 | insertion keeps a lower bound on the keys |
| Aggregate.InsertSorted | brockerage_intra_equity.py:237 | inserting into a sorted list keeps it sorted |
| Aggregate.SortRows | brockerage_intra_equity.py:237 | the result is sorted by SL_N0 and is a permutation of the input |
| Aggregate.InsertWithKey | brockerage_intra_equity.py:237 | an inserted row goes ahead of the rows of its own key and leaves other keys alone |
| Aggregate.SortStable | brockerage_intra_equity.py:237 | the sort is stable: rows of equal SL_N0 keep their relative order |
| Aggregate.KeyPresentBound | brockerage_intra_equity.py:237 | in a sorted list, no key is smaller than the first row's |
| Aggregate.SortedUnique | brockerage_intra_equity.py:237 | a sorted list is determined by its rows of each key |
| Aggregate.Collect | brockerage_intra_equity.py:225-237 | the summary rows are sorted and are a permutation of the kept rows |
| Aggregate.CollectSpec | brockerage_intra_equity.py:225-237 | sorted; rows of equal key in arrival order; each row as often as it arrived |
| Aggregate.AbsentKey | brockerage_intra_equity.py:237 | a key no row carries selects nothing |
| Aggregate.UniqueKeysAtMostOne | brockerage_intra_equity.py:237 | with unique keys, each key selects at most one row |
| Aggregate.WithKeyCount | brockerage_intra_equity.py:237 | selecting a key keeps exactly the rows of that key, with their counts |
| Aggregate.SmallEqual | brockerage_intra_equity.py:237 | two lists of at most one element with equal contents are equal |
| Aggregate.PermuteUniqueWithKey | brockerage_intra_equity.py:237 | with unique keys, rearranging leaves each key's selection unchanged |
| Aggregate.CollectOrderIndependent | brockerage_intra_equity.py:218-237 | with unique SL_N0 among the kept rows, every completion order gives the same summary rows |
| Aggregate.SuccessKeyFromRecord | brockerage_intra_equity.py:196 | when outcomes carry their records' SL_N0, every kept row carries the SL_N0 of some record |
| Aggregate.UniqueKeysKept | brockerage_intra_equity.py:218-234 | when outcomes carry their records' SL_N0, distinct SL_N0 in the table give distinct SL_N0 among the kept rows |
| Aggregate.UniqueKeysPermute | brockerage_intra_equity.py:237 | unique keys survive rearranging |
| Aggregate.KeyTwice | brockerage_intra_equity.py:237 | two positions with one key select two rows |
| Aggregate.KeyOnce | brockerage_intra_equity.py:237 | a key that occurs selects at least one row |
| Files.NoSlashAppend | brockerage_intra_equity.py:153 | a concatenation is free of `/` exactly when both parts are |
| Files.Basename | brockerage_intra_equity.py:151 | the basename has no `/`, is a suffix of the path, and is preceded by `/` when shorter |
| Files.Join | brockerage_intra_equity.py:153 | an absolute name replaces the directory |
| Files.BasenameJoin | brockerage_intra_equity.py:153 | the basename of a name joined onto a directory is the name |
| Files.SplitExt | brockerage_intra_equity.py:152 | root plus extension is the name; the extension is empty or one point followed by no point; it is empty exactly when there is no point, or only points come before the last one |
| Files.SplitExtInfix | brockerage_intra_equity.py:152-153 | a point-free infix with some other character keeps the extension and extends the root |
| Files.UnderscoreInfix | brockerage_intra_equity.py:153 | `_` followed by a point-free stamp is point-free and has a non-point character |
| Files.CopyKeepsExtension | brockerage_intra_equity.py:150-153 | the copy's extension is the original's, and its root is the original root with `_timestamp` appended |
| Files.ReaderForIs | brockerage_intra_equity.py:163-166 | CSV is chosen exactly when the last four characters, lower-cased, are `.csv`; a workbook otherwise |
| Files.ReaderIgnoresCase | brockerage_intra_equity.py:163 | the choice does not depend on letter case |
| Files.ReaderCsvSuffix | brockerage_intra_equity.py:163 | any path ending in `.csv` in any letter case is read as CSV |
| Files.ReaderUpperCsv | brockerage_intra_equity.py:163 | a path ending in `.CSV` is read as CSV |
| Files.ReaderNotCsv | brockerage_intra_equity.py:163-166 | a path whose last character is not `v` (`.xlsx`, `.xls`, `trades.csv.xls`) is read as a workbook |
| Files.FirstInputIndex | brockerage_intra_equity.py:272-283 | the index of the first input file is within the listing |
| Files.FirstInputIndexSpec | brockerage_intra_equity.py:272-283 | the entry at that index is an input file and none before it is |
| Files.FindInputFile | brockerage_intra_equity.py:266-284 | none exactly when no regular file has one of the three suffixes; otherwise the directory joined with the first such name |
| Files.InputSuffixAccepted | brockerage_intra_equity.py:275-277 | any name ending in `_input.xlsx`, `_input.xls` or `_input.csv`, in any letter case, is an input name |
| Files.InputNameIgnoresCase | brockerage_intra_equity.py:275 | whether a name is an input name does not depend on letter case |
| Files.InputNameRejected | brockerage_intra_equity.py:275-277 | a name whose last letter is none of `x`, `s`, `v` (such as `n_input.xlsm`) is not an input name |
| Files.InputNameNeedsUnderscore | brockerage_intra_equity.py:275-277 | `input.xlsx`, without the underscore, is not an input name |
| Files.FourDigits | brockerage_intra_equity.py:150 | four digits denoting the year |
| Files.FormatTimestamp | brockerage_intra_equity.py:150 | fifteen characters with `_` at position 8 |
| Files.FormatParse | brockerage_intra_equity.py:150 | the stamp reads back as the time it was made from |
| Files.StampsDistinct | brockerage_intra_equity.py:150 | distinct times give distinct stamps |
| Files.StampHasNoPoint | brockerage_intra_equity.py:150 | a stamp contains neither `.` nor `/` |
| Files.ParameterName | brockerage_intra_equity.py:174 | the symbol followed by `_parameter.xlsx` |
| Files.SummaryName | brockerage_intra_equity.py:251 | the symbol, `SUMMARY_REPORT`, the stamp and `_intra_equity.xlsx`, with the stamp recoverable from its position |
| Files.SummaryNamesDistinct | brockerage_intra_equity.py:251 | for one symbol, reports made at different times have different names |
| Files.OutputsDiffer | brockerage_intra_equity.py:174 | the parameter workbook and the summary never share a name |
| Pipeline.Outcomes | brockerage_intra_equity.py:218 | the outcome of each table row is its row processed with its own session, or a failure; each successful outcome keeps its record's SL_N0 |
| Pipeline.ProcessExcelFile | brockerage_intra_equity.py:140-263 | a run succeeds exactly when the file was read, the seven columns exist and the table is non-empty; the copy path, reader, both file names, the parameter rows and the summary rows are as above |
| Pipeline.SummaryRows | brockerage_intra_equity.py:218-240 | the summary is sorted by SL_N0, holds exactly the successfully processed rows with their multiplicities, and keeps completion order among equal SL_N0 |
| Aggregate.CollectOrigin | brockerage_intra_equity.py:228-237 | every collected row arrived as the outcome at some position of the table |
| Pipeline.ReportNames | brockerage_intra_equity.py:173-174 | a successful run names the parameter workbook `{symbol}_parameter.xlsx` and the summary `{symbol}SUMMARY_REPORT{timestamp}_intra_equity.xlsx` after the first row's symbol, so `UNKNOWN` never names a file |
| Pipeline.SummaryRowOrigin | brockerage_intra_equity.py:218-237 | every summary row is some record processed with the session of that record's position |
| Pipeline.SummaryTurnoverNonZero | brockerage_intra_equity.py:225-234 | no summary row has a zero TOTAL_PREMIUM_VALUE |
| Pipeline.ReportOrderIndependent | brockerage_intra_equity.py:216-240 | with distinct SL_N0 in the table, every completion order gives the same report |
| Pipeline.MissingColumnFails | brockerage_intra_equity.py:177-178 | a missing required column fails the whole run |
| Pipeline.CopyPathName | brockerage_intra_equity.py:150-153 | the copy path's basename is the copy name, with the original's extension |
| Pipeline.CopyNameNoSlash | brockerage_intra_equity.py:151-153 | the copy name contains no `/` |

## Left out

- The browser session and the calculator page (lines 23-79) are the `session` parameter. Its element ids, waits and shutdown are not modelled.
- Charges.CalculateBrokerage: the percentage is unrounded. `round(…, 3)` and `str` of a float are the `render` parameter, and `round_up` (lines 99-105) is never called.
- Floating point: all arithmetic is exact over `real`. TOTAL_PREMIUM_VALUE is multiplied in a different order from the quote's turnover, and the two agree exactly in the model but need not in binary floats.
- Decimal.ParseFloat: underscores in literals, `inf`, `nan` and non-ASCII digits are rejected, although Python accepts them.
- Decimal.ParseInt: underscores in literals and non-ASCII digits are rejected, although Python's `int()` accepts them.
- Rows.IsNumericString: `str.isdigit` is taken as ASCII digits. Python also accepts other Unicode digits, such as superscripts.
- Rows.ToInt: `int()` of a NaN or infinite float cell raises in Python; such cells are not representable here.
- Text.Lower: only ASCII letters are folded. Python's `str.lower` folds all of Unicode.
- Files.FormatTimestamp: years before 1000 are outside the model, because `%Y` padding is platform-dependent there.
- Paths are POSIX: `/` is the only separator. Windows drive letters and `\` are not modelled.
- File I/O is not modelled: the directories, the copy itself, `input_file != input_copy_path`, reading, and writing the workbooks. The reader's result is an input.
- The thread pool is the `arrival` permutation. The progress bar and Tk windows are not modelled, nor are the dialogs and `open_file_dialog` (lines 287 onwards).
- Aggregate.CollectOrderIndependent: with repeated SL_N0 the summary can depend on completion order. The model states which orders are possible (Aggregate.CollectSpec) rather than a single result.
- Sorting rows whose SL_N0 values cannot be compared, such as mixed types, raises in Python. Here SL_N0 is always an integer.
- debug_app.py is not part of this model.
