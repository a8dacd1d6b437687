# bank2ledger: the row-to-ledger pipeline in Dafny

bank2ledger turns the rows of a bank's CSV export into entries of a plain-text
double-entry ledger. This project models the part of it that makes decisions:

- `Bank2Ledger` (`bank2ledger.dfy`) has four parts:
  - the exclusion filter (`should_exclude`);
  - field extraction (`get_date`, `get_payee`, `get_first_amount`, `get_first_amount_currency`);
  - the second-account classifier (`get_second_accoutn`);
  - the driver loop `print`, which takes one row at a time and writes one entry per row that is kept.
- `Ledger` (`ledger_record.dfy`) holds the entry value `LedgerRecord` (`new`) and the lines its `print` writes.
- `Text` (`text.dfy`) models Rust's `str::trim`, `str::contains` and the classifier's case-insensitive pattern test.
- `Dates` (`dates.dfy`) models chrono's `%d/%m/%Y` parse and the ISO `YYYY-MM-DD` text a `NaiveDate` prints as.
- `Scenarios` (`scenarios.dfy`) works two concrete examples through the model:
  - a café row becomes its four-line entry;
  - a supermarket hint is classified by the second rule of its table.

Each imperative loop of the source is a `method` with a loop. Each method is proved equal to a specification function, and lemmas prove what those functions promise:

- `ShouldExclude` has a flag that is only ever set; its function is `CheckConditions`.
- `GetSecondAccount` returns early at the first match; its function is `SecondAccount`.
- `Print` streams entries; its function is `Run`.

`Print` in `Ledger` is a function from a record to its lines. It is deterministic because it is a function, so its output depends only on the record's fields.

What the source does is modelled as follows:

- **Panics as values.** Where the source panics (an index past the row's end, an empty amount, a date that does not parse), the model returns `Panic(fault)`.
- **A run as a trace.** A run is a `Trace`: the lines written before the panic, plus the panic if there was one. Output is streamed by `println!`, so lines written before a panic stay written.
- **The address field.** `record[meta.address]` (bank2ledger.rs:89) is an argument of `log::debug!`. It is evaluated, and can panic, only when debug logging is on. That is the `debugLogging` parameter of the driver.
- **Missing settings fields.** `Settings` in settings.rs lacks several fields the pipeline reads: `exclude_conditions`, `payee_to_second_account` (`expense`/`income` tables), `default_second_account` and `meta.address`. The model's `Settings` adds them.
- **The comment argument.** `LedgerRecord::new` takes seven arguments but `print` calls it with six. The model passes `comment = None`, so written entries never have a comment line.
- **What this code does not do.**
  - There is no debit column and no sign normalisation; the amount is copied verbatim.
  - The classifier consults exactly one table: expense when the amount starts with `-`, income otherwise. It never appends the income table to the expense table.
  - The classifier's hint is one column, not several joined.
  - There are no comment columns.
  - The first account is always the default one.
  - The date is not pre-extracted by a regex.
  - A bad row panics and ends the run instead of being skipped.
- **Fault labels.** The constructors of `Fault` (`ColumnOutOfRange(column, width)`, `EmptyAmount`, `DateParseError(text)`) are labels the model adds. The source's panic from `record[i]` carries neither the column nor the row's width, and the empty-amount panic is the same `Option::unwrap` failure. The fault records which panic it was, not the source's message.

## Model

| member | source | states |
|---|---|---|
| Text.Trim | src/bank2ledger.rs:25-27 | the result is a slice of the input, cut only at whitespace, that neither starts nor ends with whitespace (Rust `str::trim`) |
| Text.TrimIdempotent | src/bank2ledger.rs:20 | trimming a trimmed field changes nothing |
| Text.Contains | src/bank2ledger.rs:68 | `contains` is true exactly when the needle occurs as a window of the haystack |
| Text.ContainsEmpty | src/bank2ledger.rs:68 | every field contains the empty value, so a `"contains"` condition with an empty value holds of any field |
| Text.MatchesMeaning | src/bank2ledger.rs:43-44 | a pattern matches a hint exactly when it occurs in it at some position, letters compared without regard to case |
| Text.MatchesIgnoresCase | src/bank2ledger.rs:43 | matching gives the same answer whatever the case of the pattern and the hint |
| Dates.DaysInMonth | src/bank2ledger.rs:21 | February has 29 days in a leap year and 28 otherwise; April, June, September and November have 30; every other month has 31 |
| Dates.DaysInYear | src/bank2ledger.rs:21 | the twelve months add up to 365 days, or 366 in a leap year |
| Dates.ParseAccepts | src/bank2ledger.rs:21 | every text of the form day/month/year (1-2, 1-2, 1-4 digits, optional whitespace before each number) naming a real day parses to that day |
| Dates.ParseMeaning | src/bank2ledger.rs:21 | the parser gives `d` exactly when the text is whitespace, 1-2 digits, `/`, whitespace, 1-2 digits, `/`, whitespace, 1-4 digits, and these digits name `d` (a day of the calendar); it accepts nothing else |
| Dates.ParseRoundTrip | src/bank2ledger.rs:21 | parsing the `%d/%m/%Y` text of any date gives the date back |
| Dates.IsoTextReadsBack | src/ledger_record.rs:35 | a date prints as ten characters `YYYY-MM-DD` whose digit groups are its year, month and day |
| Dates.IsoTextInjective | src/ledger_record.rs:35 | different dates print differently |
| Ledger.New | src/ledger_record.rs:14-31 | every field of the record is the argument given for it, unchanged |
| Ledger.PrintLayout | src/ledger_record.rs:33-49 | the block is the header `date * "payee"`, then `        ; comment` exactly when there is a comment, the posting line (8 spaces, first account, 8 spaces, amount, space, currency), 8 spaces and the second account, and one empty line: 4 lines, or 5 with a comment |
| Ledger.PrintEndsWithOnlyBlankLine | src/ledger_record.rs:47-48 | the last line of a block is empty and no other is, so consecutive entries stay apart |
| Ledger.HeaderReadsBack | src/ledger_record.rs:35 | the header line reads back as the record's date and its payee between quotes |
| Ledger.PrintDeterminesFields | src/ledger_record.rs:33-49 | two records that print alike have the same date, payee, second account and comment |
| Bank2Ledger.Field | src/bank2ledger.rs:20 | indexing a row gives the field when the column is inside the row and panics with the column and the row's width otherwise |
| Bank2Ledger.GetDate | src/bank2ledger.rs:19-22 | the date is the trimmed date field parsed as `%d/%m/%Y`; it fails exactly when the column is missing or the text does not parse |
| Bank2Ledger.GetPayee | src/bank2ledger.rs:24-28 | the payee is the payee field without surrounding whitespace; it fails exactly when the column is missing |
| Bank2Ledger.GetFirstAmount | src/bank2ledger.rs:55-57 | the amount is the amount field, unchanged; it fails exactly when the column is missing |
| Bank2Ledger.GetFirstAmountCurrency | src/bank2ledger.rs:58-60 | the currency is the currency field, unchanged; it fails exactly when the column is missing |
| Bank2Ledger.CheckConditionsMeaning | src/bank2ledger.rs:62-78 | the filter panics exactly when some condition's column lies past the row's end, with the first such condition; otherwise the row is excluded exactly when some `"contains"` condition's value occurs in its field or some `"equal"` condition's value equals it (so no conditions exclude nothing) |
| Bank2Ledger.ShouldExclude | src/bank2ledger.rs:62-78 | the loop with its set-only flag computes the filter's answer, including the panic at the first out-of-range column |
| Bank2Ledger.ExclusionOrderIrrelevant | src/bank2ledger.rs:63-77 | conditions in any order panic on the same rows and exclude the same rows |
| Bank2Ledger.ExclusionOnlyGrows | src/bank2ledger.rs:63-77 | the flag is never reset: appending conditions never takes back an exclusion |
| Bank2Ledger.UnknownOperationsIgnored | src/bank2ledger.rs:67-75 | conditions whose operation is neither `"contains"` nor `"equal"` can be dropped without changing the answer on rows wide enough for all conditions |
| Bank2Ledger.ContainsConditionExcludes | src/bank2ledger.rs:67-70 | a row whose field contains the value of a `"contains"` condition is excluded |
| Bank2Ledger.FirstMatch | src/bank2ledger.rs:42-51 | the rule found matches the hint and no earlier rule does; no rule is found exactly when none matches |
| Bank2Ledger.SecondAccountMeaning | src/bank2ledger.rs:30-53 | the classifier fails exactly when the hint or amount column is missing or the amount is empty; otherwise it consults only the expense table (amount starting with `-`) or only the income table, and answers with the first matching rule's account, or the default second account when no rule matches |
| Bank2Ledger.GetSecondAccount | src/bank2ledger.rs:30-53 | the loop that returns at the first match computes the classifier's answer |
| Bank2Ledger.ReadEntryMeaning | src/bank2ledger.rs:97-111 | an entry is read exactly when the date, payee, amount, currency and hint columns are inside the row, the trimmed date parses and the amount is not empty; an entry read from a row has the default first account, the amount and currency fields verbatim, the trimmed payee, the parsed trimmed date, the classifier's second account and no comment |
| Bank2Ledger.ProcessRowMeaning | src/bank2ledger.rs:84-111 | a row is dropped exactly when the address column (with debug logging on) and all condition columns are inside it and some condition holds; it is written exactly when those columns are inside it, no condition holds and its entry can be read, and it is written as its entry reads |
| Bank2Ledger.ProcessRecord | src/bank2ledger.rs:84-112 | the loop body, step by step, gives the row's outcome |
| Bank2Ledger.Print | src/bank2ledger.rs:80-114 | the driver loop writes exactly what the run over the rows writes and stops at the first panic |
| Bank2Ledger.RunWritesRecords | src/bank2ledger.rs:82-113 | without panics a run writes the block of every row that is kept, in row order, and nothing for excluded rows |
| Bank2Ledger.RunStopsAtFirstPanic | src/bank2ledger.rs:82-113 | when row k is the first to panic, the run has written exactly the blocks of the rows before it and ends with that row's panic |
| Bank2Ledger.RecordsUseDefaultFirstAccount | src/bank2ledger.rs:99-111 | every written entry posts to the default first account and has no comment |
| Bank2Ledger.RecordsCount | src/bank2ledger.rs:92-112 | in a run without panics, there are as many entries as rows that are not excluded |
| Scenarios.CafeRowIsWritten | src/bank2ledger.rs:80-114 | the row `29/07/2023`, ` Crown Cafe Bar `, `-13.30`, `GBP` with no matching rule is written as `2023-07-29 * "Crown Cafe Bar"`, the posting of `-13.30 GBP` to `Assets:Bank`, `Expenses:Unknown` and an empty line |
| Scenarios.TescoClassified | src/bank2ledger.rs:42-48 | with rules `SALARY` then `TESCO`, the hint `TESCO EXPRESS 123` is decided by the second rule, `Expenses:Groceries` |

## Left out

- Reading the CSV file (`csv::Reader::from_path`, the `unwrap` of each record, bank2ledger.rs:81-83): this is file I/O and tokenizing. The model receives the rows as a sequence of string sequences. The csv crate's default reader treats the first line as a header and never yields it as a record. It also fails on a record whose width differs from the header's, and the `unwrap` then panics. So every row the source's loop sees has the header's width, while the model accepts rows of any width and has no header line.
- `Bank2Ledger::new` (bank2ledger.rs:12-17): it only stores the settings and the file path. The settings are a parameter of every operation, and the path belongs to the file reading left out above.
- The log output of `log::debug!` and `log::info!`: it is diagnostics only. The one effect it has on behaviour, the address-column index, is modelled.
- Writing to stdout: the written lines are modelled as a sequence of strings, one per `println!`.
- Loading and deserializing the settings (settings.rs), and command-line parsing and logger setup (main.rs): this is library and I/O plumbing. The model takes the settings value as given.
- Text.Matches: patterns are matched as literal text, case-insensitively with ASCII case folding. Regex syntax, Unicode case folding and the panic on an invalid pattern (bank2ledger.rs:43) are not modelled.
- Dates.ParseDayMonthYear: only unsigned years of at most four digits are modelled. chrono also accepts signed years and years beyond 9999, which the model rejects. Every text the model accepts is one chrono accepts too: `ParseMeaning` states exactly which texts those are.
- Bank2Ledger.ExclusionOrderIrrelevant: on a row too narrow for some condition, both orders panic. Which column the panic reports can depend on the order, so the lemma states equality only for runs that do not panic.
