# Personal finance ledger — verified model

The ledger records income and expense transactions in one table file whose
columns are `date`, `amount`, `category` and `description`. The program can
create that file, append a row to it, list the rows of a date range and
summarise them as total income, total expense and net savings. The values
it stores come from four prompts:
- a date in `dd-mm-yyyy`, where an empty answer can mean today;
- a strictly positive amount;
- a category code `I` or `E`, in either case;
- a free-text description.

This project models that kernel in Dafny 4.11 and proves its properties.

- `Wrappers` holds `Option` and `Result`.
- `Dates` defines dates as (day, month, year) triples and calendar validity
  for the years 1..9999. It orders dates lexicographically on (year, month,
  day) and proves that order is the order of day numbers on the calendar.
  The `dd-mm-yyyy` parser and the canonical zero-padded renderer come with
  proofs of soundness, completeness and the round trip.
- `DataEntry` models the four prompt checks as pure functions. The retry
  loops become methods over the finite sequence of answers the operator
  types. Each returns the first accepted answer and the number of rejected
  answers before it.
- `Ledger` models the file as a value `FileState`: an existence flag, the
  header line and the rows in the order they were appended. The class `Csv`
  holds that state and changes it in place with `InitializeCsv` and
  `AddEntry`. The pure functions `Initialized` and `Appended` state the
  effect of those two methods. `Query` is the date-range read and
  `Summarize` is the summary of its result.
- `Tracker` models the "add transaction" command. It also holds the
  two-day example: a salary and a food expense in March 2024.

A stored row is a `Record` with exactly the four fields of `Columns`, in
that order. Amounts are exact `real` numbers.

Behaviour of the program worth noting:
- Opening the file for appending creates a missing file without a header.
  `Appended` models this: it keeps the old header, which is empty for a new
  file. A later read of a file without a header fails.
- Reading fails (`None` from `Query`) in each of these cases:
  - the file is missing;
  - its header does not start with the `date` column, or has fewer than four columns;
  - a bound is not a valid date;
  - a stored date is neither a missing value nor a valid date;
  - a stored date lies outside the range the date converter can hold,
    22-09-1677 to 11-04-2262, because it stores nanosecond timestamps.

  The program raises an exception in each of them, apart from the header
  forms and the stored texts `now` and `today` listed under "Left out".
- A stored date that the table reader takes for a missing value is skipped
  by every query rather than failing it. This covers the empty text and
  the reader's markers such as `NA`, `NaN`, `None` and `null`, and the date
  converter's "not a time" spellings such as `NaT` and `NAN` (`MissingDateTexts`).
  A text such as `none` is neither, so a row dated with it makes every query fail.
- The program does not check a stored row's amount or category when it
  reads the file.

## Model

| member | source | states |
|---|---|---|
| Dates.ParseDate | data_entry.py:11 | an accepted text always yields a valid calendar date (years 1..9999, real month lengths, leap years) |
| Dates.ParseDateAccepts | data_entry.py:11 | every text of a 1–2 digit day, a dash, a 1–2 digit month, a dash and a 4-digit year that names a valid date parses to exactly that date |
| Dates.ParseDateSound | data_entry.py:11 | every accepted text has exactly that shape, and the result is the date its fields denote |
| Dates.ParseFormat | data_entry.py:11 | parsing the canonical rendering of a valid date gives back the same date |
| Dates.FormatDate | data_entry.py:11 | the rendering is ten characters, with dashes at positions 2 and 5 |
| Dates.IndexOf | data_entry.py:11 | the result is the position of the first occurrence of the separator, or the length when there is none |
| Dates.LeTotalOrder | main.py:33 | the date comparison is reflexive, total, antisymmetric and transitive |
| Dates.LeIsChronological | main.py:31-33 | on valid dates, the comparison holds exactly when the first date's day number is not larger, so the order is chronological |
| DataEntry.NormalizeDate | data_entry.py:11 | a canonical text is produced exactly for valid dates; it denotes the same date and has the fixed dd-mm-yyyy layout |
| DataEntry.NormalizeIdempotent | data_entry.py:11 | normalising an already returned date text yields the same text |
| DataEntry.DateInput | data_entry.py:8-15 | an empty answer gives today's canonical date when a default is allowed, and "Date is required" otherwise; any other answer is accepted exactly when it is a valid date, as a canonical text of the same date, and is refused as an invalid format otherwise |
| DataEntry.GetDate | data_entry.py:7-16 | every answer before the returned one was refused; the returned date is the accepted value of the next answer; no date is returned only when every answer was refused |
| DataEntry.AmountInput | data_entry.py:22-26 | an amount passes exactly when it is a number strictly greater than 0, and is returned unchanged; a non-number and a non-positive number are refused with their own reasons |
| DataEntry.GetAmount | data_entry.py:19-28 | every answer before the returned amount was refused; the returned amount is the next answer and is positive; none is returned only when all were refused |
| DataEntry.Upper | data_entry.py:33 | the upper-cased text has the same length, each character upper-cased |
| DataEntry.CategoryInput | data_entry.py:33-35 | an accepted category is always "Income" or "Expense" |
| DataEntry.CategoryInputCases | data_entry.py:4 | "I" or "i" gives Income, "E" or "e" gives Expense, and every other text is refused |
| DataEntry.GetCategory | data_entry.py:31-36 | every answer before the returned one was refused; the returned category is the next answer's, and is Income or Expense |
| DataEntry.DescriptionInput | data_entry.py:39-40 | the description is returned exactly as entered, the empty text included |
| Ledger.Initialized | main.py:18-20 | an absent file is created with only the header date, amount, category, description and no rows; an existing file is left as it is |
| Ledger.InitializeIdempotent | main.py:18-20 | initialising twice equals initialising once |
| Ledger.Csv.InitializeCsv | main.py:18-20 | the store's new state is the initialised old state |
| Ledger.Appended | main.py:23-26 | appending creates the file if needed, keeps the header, adds exactly one row, places it last and leaves every earlier row unchanged and in order |
| Ledger.Csv.AddEntry | main.py:23-26 | the store's new state is the old state with the record of the four given fields appended |
| Ledger.Csv.constructor | main.py:12-15 | the store starts as the file found on disk |
| Ledger.Query | main.py:29-33 | reading succeeds exactly when the file exists with `date` as the first of at least four columns, both bounds parse, and every stored date is a missing value or a date within the converter's range; the result holds exactly the stored rows dated from start to end with both ends included, each as often as it is stored, as a subsequence in file order; it is empty for an empty file and when start is after end |
| Ledger.FilterMembers | main.py:33 | a row is in the range filter exactly when it is stored and its parsed date lies in the window |
| Ledger.FilterMultiplicity | main.py:33 | the range filter keeps each row in the window exactly as many times as it is stored, and no other row |
| Ledger.FilterSubsequence | main.py:33 | the range filter keeps the rows in their stored order |
| Ledger.FilterConcat | main.py:33 | filtering a concatenation is the concatenation of the filtered parts |
| Ledger.FilterReversedEmpty | main.py:33 | a window whose end is before its start selects no row |
| Ledger.ParsedNotMissing | main.py:30-31 | no missing-value marker is a valid date text |
| Ledger.MissingDatesNeverParse | main.py:30-33 | a row whose date is a missing-value marker lies in no window |
| Ledger.QueryAfterAppend | main.py:23-33 | after one append, every readable query returns its old result, plus the new row at the end when that row's date is in the window; a new row whose date is neither a missing value nor a date within the converter's range makes every later query fail (for `now` and `today` see Left out) |
| Ledger.MissingDateSkipped | main.py:30-33 | appending a row whose date is a missing-value marker leaves every readable query's result unchanged |
| Ledger.OutOfRangeDateBreaksQueries | main.py:31 | appending a row with a valid date outside the converter's range makes every later query fail |
| Ledger.AppendThenQueryItsDay | main.py:23-33 | after appending a row dated d, within the converter's range, to a readable file, the query from d to d succeeds and ends with that row |
| Ledger.ValidRowsAreReadable | main.py:30-32 | a readable file whose rows all came through the prompts, dated within the converter's range, can always be read; the query then fails only for a bound that is not a valid date |
| Ledger.Summarize | main.py:48-57 | an empty result gives the "No transactions found" notice; otherwise total income is the sum of the Income amounts, total expense the sum of the Expense amounts, and net savings is their difference |
| Ledger.TotalEmpty | main.py:50-51 | the total of no rows is 0 |
| Ledger.TotalConcat | main.py:50-51 | category totals add over concatenation |
| Ledger.SummarizeAdditive | main.py:50-53 | the summary of two results together adds their incomes, expenses and savings |
| Ledger.IncomeAndExpenseCoverAll | main.py:50-51 | when every row is Income or Expense, the two totals add up to the sum of all amounts |
| Ledger.TotalPositive | main.py:50-51 | with positive amounts a total is never negative, and positive when the category occurs |
| Tracker.AddTransaction | main.py:39-42 | the file is initialised; the date, amount and category prompts run in that order, each only once the previous one succeeded, and for each the rejected answers are counted and the count of a prompt that succeeded points at its accepted answer; a row is appended exactly when all three succeed, and it is the accepted date, amount and category with the description as entered; a readable file with only prompt-made rows stays so |
| Tracker.QueryTwoAppends | main.py:23-33 | two rows appended to a new file, both in the window, come back from the query in insertion order |
| Tracker.TwoDayScenarioQuery | main.py:23-33 | after appending 01-03-2024 salary 100 and 02-03-2024 food 40, the query from 01-03-2024 to 02-03-2024 returns both rows in that order |
| Tracker.TwoDayScenarioSummary | main.py:50-53 | their summary is income 100, expense 40, net savings 60 |
| Tracker.QueryMissingThenDated | main.py:30-33 | a row with a missing date followed by a dated row in the window: only the dated row comes back |
| Tracker.MissingDateScenario | main.py:30-33 | a row with an empty date followed by 01-03-2024 salary 100: the query for that day returns only the salary row |
| Tracker.UpperNanSkipped | main.py:30-33 | a file whose one row is dated `NAN` reads it as a missing date, and the query returns no rows |
| Tracker.LowerNoneFails | main.py:30-31 | a file whose one row is dated `none` cannot be read: the query fails |

## Left out

- Physical file input and output are left out: reading and writing the table, quoting values, and rendering or re-reading numbers as text. The file is the abstract `FileState`.
- The serialisation is abstract. So the model does not show that an empty description is read back as a missing value.
- Floating point is not modelled, and neither is turning text into a number: parsing an amount, formatting it with two decimals, and floating-point summation. `GetAmount` takes each answer as an already converted exact `real`, or `None` when the text is not a number. The special values `nan` and `inf` are not represented.
- The clock is left out: "today" is a parameter of `DateInput` and `GetDate`.
- The parser's lexical leniency is left out, for example a space-padded day. The model accepts one- or two-digit days and months and four-digit years.
- `FormatDate`: zero-pads the year to four digits. The platform's strftime may not pad years below 1000.
- `Upper`: upper-cases ASCII letters only. Python's Unicode upper-casing maps a few other characters to exactly `I` or `E` too, such as the dotless ı to "I". The program accepts those as category codes and the model refuses them.
- `GetDate`: the date prompt retries by calling itself, and the model writes that retry as a loop. The loop never fails by itself. The program's recursion instead reaches the interpreter's default recursion limit after about a thousand refused answers in a row, and then fails. The loop returns `None` when the answers run out, where the program would go on asking or fail at the end of its input.
- Plotting is left out because it is presentation, and so is printing the result table.
- The menu loop, the "Show plot?" question, and printing and logging are left out.
- The exception handlers in the menu loop name an error class defined nowhere in the program. The model gives them no error semantics.
- `Query`: a header that names `date` in a column other than the first is treated as unreadable. The reader matches fields to columns by position, so it would take another field of each row for the date. Headers with fewer than four columns are treated as unreadable too, although the reader would then use the leading fields as a row index. A file with no header line is treated as unreadable, although the reader would take its first row as the header.
- `Query` and `QueryAfterAppend`: the date converter reads a stored `now` or `today` as the current time, and the program then compares that moment with the bounds. The model has no clock, so it treats these texts as unreadable dates: the query returns `None`, and `QueryAfterAppend` states that such a row makes every later query fail.
- `Query`: the list of missing-value markers and the nanosecond date range are those of the 2.x releases of the table library. Under 1.x a stored `None` is not a missing-value marker, so that row makes the query fail where the model skips it. Under 1.x a query bound outside the nanosecond range also makes the comparison fail, while the model accepts every valid bound.
- `Summarize`: assumes the `amount` and `category` columns that `Columns` names. Reading a table that lacks them fails in the program and is not modelled.
- The view command's two date prompts are `GetDate` without a default. Its query and summary are `Query` and `Summarize`. No separate member composes them.
