# Sors-Finance core, modelled in Dafny

Sors-Finance is a personal-finance web application. A user uploads a bank export, and the
upload goes through four steps:

1. The application decides which bank the file comes from: AMEX spreadsheets or CIBC
   CSV/spreadsheet files.
2. It validates the file and parses it into transactions.
3. It stores the transactions, skipping ones it has already seen.
4. It files each transaction under a category whose keywords occur in its text.

Budgets are kept per category and per month or year, and can be copied from one period to
another. Categories, portfolio accounts and portfolio items can be reordered by drag and
drop. A small key-value settings table rounds off the data. The data lives in two places:

- a browser database: categories, transactions, imports, budgets and settings;
- a server database: the same tables with an owning user on every row, plus portfolio
  accounts and items.

The project models:

- the bank parsers: the shared cell, date and amount helpers, and the AMEX and CIBC
  detectors, validators and parsers;
- the bulk transaction import and the keyword re-categorisation;
- the category, import, budget and settings operations of the browser database;
- the server routes for budgets, budget copies, reordering and settings;
- the request gate that guards every route;
- a few display helpers: relative dates, month names, privacy masks and sign prefixes;
- the amount-field cleaner of the portfolio snapshot editor.

Layout, one module per source file, plus shared helpers:

- Shared helpers: `Wrappers` (Option and Result), `Text` (JavaScript-like string
  operations), `SeqUtil` (filter, count, sort by key, splice and distinctness).
- Parsers: `ParserTypes`, `ParserUtils`, `Amex` (with the documented worked example in
  `AmexExample`) and `Cibc`.
- Browser database: `LocalDb.Database` is the store; `Keywords`, `Categories`, `Imports`,
  `Budgets` and `Settings` work on it.
- Server database: `ServerDb.Store` is the store; `BulkImport`, `Recategorize`,
  `BudgetRoutes`, `ReorderRoutes` and `SettingsRoute` work on it.
- Reordering: `Reorder` holds the splice-and-renumber step shared by every reorder.
- Other helpers: `Middleware`, `Formatters` and `NumericInput`.

How the source is modelled:

- **Stores.** Both stores are classes. Their tables are `seq` fields, and their id counters
  are `int` fields. The invariant `Valid()` says every table is keyed by strictly
  increasing ids below its counter. Every operation that changes a store is a method with
  `modifies`. Each such method states its whole new state as a function of the old one.
  The properties the source promises are proved about those functions as lemmas.
- **Loops.** Loops in the source are methods with loop invariants, proved equal to a
  specification function: the parsers' row loops, the detector and validator counters, the
  bulk duplicate filter, the re-categorisation loop, the budget copy loop and the
  renumbering loop.
- **Inputs.** The model starts from an already-decoded row matrix: a cell is `None` for
  null or undefined, otherwise its text. Amounts are exact `real`s. A date is a (year,
  0-based month, day) triple, as `new Date` receives it. An amount of a bulk import request
  is a number, `null` or `undefined`, since the route treats the three differently. The
  signed-in user is a `userId` parameter. The clock of `formatRelativeDate` is a parameter.

Where the written description of the system and the code disagree, the model follows the
code:

- `deleteCategory` (lib/db/categories.ts:130-141) sets the category of the affected
  transactions to null. It does not move them to "Uncategorized".
- `updateCategory` (lib/db/categories.ts:76-99) increments `uncategorized` for every
  transaction that leaves the edited category, including those another category then
  takes.
- `copyBudgetToMonth` in the browser (lib/db/budgets.ts:63-86) with a null `fromMonth`
  copies every budget of the year, monthly ones included. The server copy
  (app/api/budgets/copy/route.ts:24-34) copies only the yearly ones. Both are modelled as
  written.
- The AMEX parser's `netAmount` (lib/parsers/banks/amex.ts:235) is `-amount` on both
  branches of its conditional, which equals `amountIn - amountOut`.
- The doc comment of `formatRelativeDate` (lib/formatters.ts:218) gives "7 days ago" as an
  example for a week-old date. The code answers "1 week ago". `Formatters.SevenDaysIsOneWeek`
  states what the code does.
- The bulk import's duplicate test (app/api/transactions/bulk/route.ts:26-29, 53) is
  modelled as written: the route members use `BulkImport.Skipped`. The evidently intended
  test, `BulkImport.SkippedIntended`, carries the re-send property (see "## Findings").

## Model

| member | source | states |
|---|---|---|
| ParserTypes.Rate | lib/parsers/banks/amex.ts:83-105 | a detector reports `detected` exactly when its confidence is not none |
| ParserTypes.RateMatchesRatio | lib/parsers/banks/amex.ts:83-105 | the integer cross-multiplication decides the same high/medium/low/none ladder as comparing `matched / total` with 0.8, 0.5 and 0.2 |
| ParserTypes.RateMonotone | lib/parsers/banks/cibc.ts:79-105 | among the same sampled rows, more matching rows never lower the confidence |
| ParserTypes.FullYear | lib/parsers/utils.ts:147 | `new Date` reads the years 0..99 as 1900..1999 and keeps every other year, so no resulting year is in 0..99 |
| ParserTypes.DayNumberFacts | lib/parsers/banks/amex.ts:221 | the day count behind `getTime` is 0 on 1 January 1970 and 11017 on 1 March 2000, and it grows by one a day |
| ParserTypes.GatherMembers | lib/parsers/banks/amex.ts:175-240 | the parse loop's transactions are exactly the rows that parsed, and its errors are exactly the rows that failed |
| ParserTypes.GatherAllSkipped | lib/parsers/banks/amex.ts:186-187 | rows that are all skipped push neither a transaction nor an error |
| ParserTypes.Finish | lib/parsers/banks/amex.ts:242-244 | a parse with neither transactions nor errors gets the single "no valid transactions" error; any other result is unchanged; the result is never empty |
| ParserUtils.ExcelAndCsvDisjoint | lib/parsers/utils.ts:32-42 | no file name is both a spreadsheet (`.xlsx`/`.xls`/`.xlsm`) and a CSV file |
| ParserUtils.ExtensionIgnoresCase | lib/parsers/utils.ts:32-42 | the extension tests give the same answer for an upper-cased file name |
| Text.EndsWithMeans | lib/parsers/utils.ts:32-42 | `endsWith`, compared character by character from the end, holds exactly when the last characters of the name are the suffix |
| ParserUtils.GetCellString | lib/parsers/utils.ts:208-212 | the cell's trimmed text has no surrounding white space and is empty for a missing cell |
| ParserUtils.GetCellStringBlank | lib/parsers/utils.ts:208-212 | a cell reads as non-empty iff it is present and holds a non-space character |
| ParserUtils.EmptyRowIffBlankCells | lib/parsers/utils.ts:217-224 | a row is empty exactly when every cell reads "" through `getCellString` |
| ParserUtils.MatchSlashDate | lib/parsers/utils.ts:73 | a match returns groups of one or two, one or two, and four digits that make up the text |
| ParserUtils.MatchSlashDateOf | lib/parsers/utils.ts:73 | every text of the `d{1,2}/d{1,2}/d{4}` shape matches, with its own groups |
| ParserUtils.MatchIsoDate | lib/parsers/utils.ts:111 | a match returns groups of four, two and two digits that make up the text |
| ParserUtils.MatchIsoDateOf | lib/parsers/utils.ts:111 | every text of the `d{4}-d{2}-d{2}` shape matches, with its own groups |
| ParserUtils.ParseDateMDY | lib/parsers/utils.ts:70-87 | a date is returned only for the slash shape, with a month in 0..11 and a day in 1..31 |
| ParserUtils.ParseDateDMY | lib/parsers/utils.ts:89-106 | a date is returned only for the slash shape, with a month in 0..11 and a day in 1..31 |
| ParserUtils.ParseDateISO | lib/parsers/utils.ts:108-121 | a date is returned only for the ISO shape, with a month in 0..11 and a day in 1..31 |
| ParserUtils.SlashDateReadings | lib/parsers/utils.ts:70-106 | on the slash shape `a/b/c`, M/D/Y succeeds iff `a` is in 1..12 and `b` in 1..31 and gives (c, a−1, b); D/M/Y succeeds iff `b` is in 1..12 and `a` in 1..31 and gives (c, b−1, a); a year c in 0..99 becomes 1900 + c |
| ParserUtils.InRangeValid | lib/parsers/utils.ts:70-121 | a date the numeric parsers return, with its four-digit year of at least 100, is never an Invalid Date |
| ParserUtils.ParseDateISORoundTrip | lib/parsers/utils.ts:108-121 | every in-range date (year 100..9999) is read back from its zero-padded ISO text |
| ParserUtils.ParseDateMDYRoundTrip | lib/parsers/utils.ts:70-87 | every in-range date (year 100..9999) is read back from its month/day/year text |
| ParserUtils.Digits | lib/parsers/utils.ts:111 | the numeral of `n` padded to a width has that width and only digits, and reads back as `n` when it fits |
| ParserUtils.MonthMapRange | lib/parsers/utils.ts:14-30 | every month name and abbreviation maps to a 0-based month in 0..11 |
| ParserUtils.DateFromWords | lib/parsers/utils.ts:141-148 | a date is returned exactly when the day and year are numbers, the month is known and the day is in 1..31; it is that day and month in the year `new Date` makes of the year, and it may be an Invalid Date |
| ParserUtils.ParseDateDMonY | lib/parsers/utils.ts:128-148 | a returned date has a day in 1..31 and a month in 0..11 |
| ParserUtils.ParseDateMonDY | lib/parsers/utils.ts:155-174 | a returned date has a day in 1..31 and a month in 0..11 |
| ParserUtils.ParseDateDMonYShape | lib/parsers/utils.ts:128-148 | "DD Mon YYYY" and "DD Mon. YYYY" are read as that day, the month of the word's first three letters (when known), and that year |
| ParserUtils.ParseDateMonDYShape | lib/parsers/utils.ts:155-174 | "Mon DD, YYYY" and "Mon DD YYYY" are read as that month, day and year |
| ParserUtils.SplitThree | lib/parsers/utils.ts:133 | three fields without white space, joined by single spaces, split back into those three fields |
| ParserUtils.NormalizeThree | lib/parsers/utils.ts:132-133 | trimming, lower-casing and splitting three space-separated words gives the three lower-cased words |
| ParserUtils.CleanAmount | lib/parsers/utils.ts:185 | the cleaned text holds exactly the digits, dots, commas and minus signs of the input |
| ParserUtils.NormalizeAmount | lib/parsers/utils.ts:189-199 | the separator rewrite only keeps characters of its input or writes dots |
| ParserUtils.DecimalPrefixHasDigit | lib/parsers/utils.ts:201 | `parseFloat` yields a number only from text that holds a digit |
| ParserUtils.DecimalPrefixOf | lib/parsers/utils.ts:201 | `parseFloat` of `i.f` is the decimal value of those digits |
| ParserUtils.ParseAmount | lib/parsers/utils.ts:181-202 | text without a digit, the empty text included, gives 0 |
| ParserUtils.NoDigitNoAmount | lib/parsers/utils.ts:181-202 | text without a digit leaves nothing for `parseFloat` to read |
| ParserUtils.ParseAmountOfCleaned | lib/parsers/utils.ts:185 | parsing already-cleaned text gives the same amount: currency symbols and spaces never matter |
| ParserUtils.NormalizeNoComma | lib/parsers/utils.ts:196-198 | text without a comma is read as it stands |
| ParserUtils.CurrencyAmount | lib/parsers/utils.ts:181-202 | an amount after a currency prefix such as "$" is its decimal value |
| ParserUtils.AmountLocales | lib/parsers/utils.ts:189-199 | "a.b,c" and "a,b.c" both parse to the decimal value of `ab.c`, so "1.234,56" and "1,234.56" are the same amount |
| ParserUtils.EuropeanAmount | lib/parsers/utils.ts:190-193 | with the comma after the last dot, the dots are dropped and the comma becomes the decimal point |
| ParserUtils.AmericanAmount | lib/parsers/utils.ts:194-198 | with the dot last, the commas are dropped |
| ParserUtils.SeparatorPositions | lib/parsers/utils.ts:189 | in `a x b y c` with digit fields, `lastIndexOf` finds `x` at `|a|` and `y` at `|a|+1+|b|` |
| Amex.AmexDateOf | lib/parsers/banks/amex.ts:22 | every "DD Mon YYYY" or "DD Mon. YYYY" text fits `AMEX_DATE_PATTERN` |
| Amex.AmexDateParses | lib/parsers/banks/amex.ts:22 | such a text both fits the pattern and is read by `parseDateDMonY` as its day, month and year |
| Amex.DataRowsAt | lib/parsers/banks/amex.ts:49 | the data rows are the rows after the twelve header rows |
| Amex.SampleAt | lib/parsers/banks/amex.ts:57 | the sample is at most the first ten data rows, in order |
| Amex.AmountText | lib/parsers/banks/amex.ts:63 | the amount text is empty exactly when columns D and C are both blank |
| Amex.DetectSpec | lib/parsers/banks/amex.ts:37-105 | a non-spreadsheet or a file of fewer than 13 rows is not detected, with its reason; detected iff confidence is not none; a detection needs a spreadsheet and at least one AMEX-looking sampled row |
| Amex.SampleRow | lib/parsers/banks/amex.ts:58-76 | one pass of the detection loop counts a row iff it has four cells and is not blank, and counts it as AMEX-like iff its date fits and it has a dollar amount or more than six cells |
| Amex.Detect | lib/parsers/banks/amex.ts:37-105 | the counting loop over rows 13 to 22 returns exactly `DetectSpec` |
| Amex.DetectIgnoresLaterRows | lib/parsers/banks/amex.ts:57 | rows after the 22nd never change the verdict |
| Amex.DetectIgnoresHeader | lib/parsers/banks/amex.ts:49 | the contents of the twelve header rows never change the verdict |
| Amex.ColumnCheck | lib/parsers/banks/amex.ts:165-169 | at most one column error, raised only when the first non-empty data row has 1 to 3 cells |
| Amex.ValidateSpec | lib/parsers/banks/amex.ts:108-171 | valid iff there are no errors; missing amounts only ever warn; a non-spreadsheet gets exactly the Excel error, fewer than 13 rows exactly the too-few-rows error, and a sample without a checked row exactly the no-valid-rows error; otherwise the date error is raised iff more than half of the checked rows have a bad date, the missing-amounts warning iff more than half lack an amount, and the column error whenever the first non-empty data row is short; no other error appears, so the file is valid iff the bad dates are at most half of the checked rows and the first data row with any cell, if there is one, has at least 4 cells |
| Amex.CheckRow | lib/parsers/banks/amex.ts:134-148 | one pass of the validation loop counts a row iff it has three cells, a bad date iff its date does not fit the pattern, and a missing amount iff columns D and C are blank |
| Amex.ScanSample | lib/parsers/banks/amex.ts:132-149 | the loop counts exactly the checked rows, those with a bad date and those with no amount |
| Amex.Validate | lib/parsers/banks/amex.ts:108-171 | the counting loop returns exactly `ValidateSpec` |
| Amex.Columns | lib/parsers/banks/amex.ts:191-213 | a payment row (column D blank) reads its description from column I and amount from column C; other rows read column D, and the description from column J, falling back to C |
| Amex.AmexTransaction | lib/parsers/banks/amex.ts:227-236 | a positive amount is money out, a negative one money in, the net is in minus out, and the match text is the description |
| Amex.AmexRow | lib/parsers/banks/amex.ts:181-239 | a row is skipped iff it is empty; a failure names its row; it fails with the invalid-date message iff it has a date and a description and the date is unreadable or an Invalid Date; a parsed row is well-formed with a non-empty description as match text and a valid date read from its first cell |
| Amex.AmexRowParsed | lib/parsers/banks/amex.ts:189-236 | a row whose date is read as a valid date and whose description is present becomes exactly that transaction |
| Amex.Outcomes | lib/parsers/banks/amex.ts:181-183 | one outcome per data row |
| Amex.ParseRow | lib/parsers/banks/amex.ts:185-239 | the loop body returns exactly the row's outcome |
| Amex.Parse | lib/parsers/banks/amex.ts:174-247 | the parse loop returns exactly the gathered and finished outcomes |
| Amex.ParseWellFormed | lib/parsers/banks/amex.ts:227-236 | every transaction has non-negative money in and out, net = in − out, and match text = description |
| Amex.ParseRowNumbers | lib/parsers/banks/amex.ts:183 | every row error names a spreadsheet row from 13 to the last row |
| Amex.FailedRowNumber | lib/parsers/banks/amex.ts:183-206 | a failed data row's error names its own spreadsheet row and is one of the two row errors |
| Amex.ParsedRowFacts | lib/parsers/banks/amex.ts:227-236 | a parsed data row is well-formed, with its non-empty description as match text |
| Amex.ParseReportsSomething | lib/parsers/banks/amex.ts:242-244 | a parse always reports a transaction or an error; a file of blank data rows reports only the "no valid transactions" error |
| Amex.ParseIgnoresHeader | lib/parsers/banks/amex.ts:179 | the header rows never change the parse |
| AmexExample.ExampleDateWords | lib/parsers/banks/amex.ts:62-66 | "16 Dec. 2025" fits the AMEX pattern and is read from the words 16, "dec" and 2025 |
| AmexExample.DecemberDate | lib/parsers/utils.ts:141-147 | day 16, "dec" and year 2025 make 16 December 2025 |
| AmexExample.ExampleDate | lib/parsers/banks/amex.ts:62-66 | "16 Dec. 2025" fits the AMEX pattern and reads as 16 December 2025, a valid date |
| AmexExample.TwoDigitYear | lib/parsers/utils.ts:147 | day 16, "dec" and year 25 make 16 December 1925 |
| AmexExample.HugeYearInvalid | lib/parsers/banks/amex.ts:220-224 | day 16, "dec" and year 300000 make a date, but an Invalid Date, which the row check refuses |
| AmexExample.ExampleAmount | lib/parsers/banks/amex.ts:227 | "$4.50" parses to 4.5 |
| AmexExample.ExampleDetect | lib/parsers/banks/amex.ts:62-105 | a spreadsheet of twelve header rows and the documented row is detected with high confidence |
| AmexExample.ExampleParse | lib/parsers/banks/amex.ts:174-247 | it parses to the one transaction dated 2025-12-16, 4.50 out, 0 in, match text "Local purchase" |
| AmexExample.WorkedExample | lib/parsers/banks/amex.ts:62-76 | both verdicts of the worked example together |
| Cibc.ParseCibcDate | lib/parsers/banks/cibc.ts:25-33 | a date is returned only for text of either CIBC shape, and it is in range |
| Cibc.ShapesDisjoint | lib/parsers/banks/cibc.ts:19-20 | no text has both the ISO and the slash shape |
| Cibc.ParseCibcDateEither | lib/parsers/banks/cibc.ts:25-33 | the ISO reading is tried first, then month/day/year |
| Cibc.ParseCibcDateRoundTrip | lib/parsers/banks/cibc.ts:25-33 | every in-range date (year 100..9999) is read back from both its ISO and its M/D/Y text |
| Cibc.CibcDateValid | lib/parsers/banks/cibc.ts:184-188 | a date `parseCIBCDate` returns is never an Invalid Date, so the loop's `isNaN` test never fails |
| Cibc.Sample | lib/parsers/banks/cibc.ts:54 | the sample is at most the first ten rows, and is non-empty for a non-empty file |
| Cibc.DetectSpec | lib/parsers/banks/cibc.ts:45-105 | an empty file is not detected; detected iff confidence is not none; a detection needs a CIBC-looking row; all sampled rows looking CIBC gives high confidence |
| Cibc.Detect | lib/parsers/banks/cibc.ts:45-105 | the counting loop returns exactly `DetectSpec` |
| Cibc.DetectIgnoresLaterRows | lib/parsers/banks/cibc.ts:54 | rows after the tenth never change the verdict |
| Cibc.DollarSignNeverCibc | lib/parsers/banks/cibc.ts:59-76 | a dollar sign in an amount cell keeps a row from counting as CIBC-like |
| Cibc.ShortRowErrorsMeans | lib/parsers/banks/cibc.ts:125-128 | one error per sampled row with 1 to 3 cells, naming its 1-based row and column count, and no other |
| Cibc.ValidateSpec | lib/parsers/banks/cibc.ts:108-160 | valid iff there are no errors; an empty file gets exactly the empty-file error; a sample without a counted row gets the no-valid-rows error; the date error is raised iff more than half of the counted rows have a bad date, and the warning iff more than half lack a description; every other error is a short-row error; so a non-empty file is valid iff no sampled row is short, some row is counted, and the bad dates are at most half of the counted rows |
| Cibc.ValidateRowErrors | lib/parsers/banks/cibc.ts:125-128 | every short sampled row's error is reported, and a missing description is never an error |
| Cibc.CheckRow | lib/parsers/banks/cibc.ts:130-143 | one pass of the validation loop counts a row iff it has four cells, a bad date iff its date has neither shape, and a missing description iff column B is blank |
| Cibc.ScanSample | lib/parsers/banks/cibc.ts:121-144 | the loop collects exactly the short-row errors and the three counters |
| Cibc.Validate | lib/parsers/banks/cibc.ts:108-160 | the loop returns exactly `ValidateSpec` |
| Cibc.ShortRowInvalid | lib/parsers/banks/cibc.ts:125-128 | a short row among the first ten always makes the file invalid |
| Cibc.CibcTransaction | lib/parsers/banks/cibc.ts:190-200 | money out and in are the magnitudes of the two amount columns, net = in − out, match text = description |
| Cibc.CibcRow | lib/parsers/banks/cibc.ts:166-203 | a row is skipped iff it has fewer than 4 cells or is empty; it fails with the missing-date-or-description error iff the date or description cell is blank, and with the invalid-date error iff both are present but `parseCIBCDate` fails; it is parsed iff neither happens, and then its date is the parsed one, its description the description cell, its amount out and amount in the magnitudes of columns 2 and 3, and its net amount in minus out |
| Cibc.Outcomes | lib/parsers/banks/cibc.ts:166-168 | one outcome per row |
| Cibc.ParseRow | lib/parsers/banks/cibc.ts:170-203 | the loop body returns exactly the row's outcome |
| Cibc.Parse | lib/parsers/banks/cibc.ts:162-211 | the parse loop returns exactly the gathered and finished outcomes |
| Cibc.ParseWellFormed | lib/parsers/banks/cibc.ts:190-200 | every transaction has non-negative money in and out and net = in − out |
| Cibc.ParseRowNumbers | lib/parsers/banks/cibc.ts:168 | every row error names a 1-based row of the file |
| Cibc.FailedRowNumber | lib/parsers/banks/cibc.ts:179-187 | a failed row's error names its own row and is one of the two row errors |
| Cibc.ParsedRowFacts | lib/parsers/banks/cibc.ts:190-200 | a parsed row is well-formed, with its non-empty description as match text and an in-range date |
| Cibc.ParseReportsSomething | lib/parsers/banks/cibc.ts:206-208 | a parse always reports something; a file of short or blank rows reports only the terminal error |
| Keywords.MatchesKeywordsIff | lib/db/categories.ts:187-190 | the scan matches iff some keyword, lower-cased, occurs in the lower-cased text |
| Keywords.MatchesSameKeywords | lib/db/categories.ts:187-190 | only the set of keywords matters, not their order or repetition |
| Keywords.MatchesMoreKeywords | lib/db/categories.ts:187-190 | more keywords match at least what fewer match |
| Keywords.MatchesAppend | lib/db/categories.ts:187-190 | appending a keyword adds exactly its own matches |
| Keywords.MatchesIgnoresCase | lib/db/categories.ts:187-190 | matching ignores the case of the text |
| Keywords.EmptyKeywordMatchesAll | lib/db/categories.ts:187-190 | a blank keyword matches every text |
| Categories.FindCategory | lib/db/categories.ts:57 | the row with the id, or none exactly when no row has it |
| Categories.FirstClaim | lib/db/categories.ts:192-201 | the index of the first category in table order, other than the excluded one, that matches the text; -1 iff none does |
| Categories.ClaimantsCounted | lib/db/categories.ts:102-123 | no claimant is counted iff `findMatchingCategory` finds none |
| Categories.MaxOrder | lib/db/categories.ts:40-41 | the largest order, none iff the table is empty |
| Categories.NextOrder | lib/db/categories.ts:39-51 | above every existing order, one past the largest, 0 for an empty table |
| Categories.AddCategory | lib/db/categories.ts:39-51 | one category is appended under the next id with the next order; nothing else changes |
| Categories.UpdateRow | lib/db/categories.ts:67-70 | the row with the id takes the update (and keeps its id); every other row stays |
| Categories.EditCategory | lib/db/categories.ts:53-127 | an unknown id changes nothing and reports zeros; a known one's row becomes the row with the update applied; no other category changes, and of the transactions only their categories can change |
| Categories.EditSameKeywords | lib/db/categories.ts:57-72 | keywords equal as sorted lists re-classify nothing and report zeros |
| Categories.EditedCategoryMatches | lib/db/categories.ts:76-99 | after a keyword change every transaction left in the edited category matches its new keywords |
| Categories.EditLeavesOthers | lib/db/categories.ts:76-123 | transactions of other categories are untouched |
| Categories.EditMovesLeavers | lib/db/categories.ts:76-99 | a transaction that still matches stays; one that does not moves to the first other matching category, or to null |
| Categories.EditAdoptsUnclaimed | lib/db/categories.ts:102-123 | a null transaction joins the edited category iff the new keywords match and no other category does |
| Categories.EditCounts | lib/db/categories.ts:76-123 | `assigned` counts the re-homed and adopted transactions, `uncategorized` every leaver, `conflicts` the contested ones |
| Categories.RunFirstPass | lib/db/categories.ts:76-99 | the first loop computes the first pass and its two counters |
| Categories.RunSecondPass | lib/db/categories.ts:102-123 | the second loop computes the second pass and its two counters |
| Categories.EditTables | lib/db/categories.ts:53-127 | the category and transaction tables and the counters come out exactly as `EditCategory` says |
| Categories.UpdateCategory | lib/db/categories.ts:53-127 | the tables become those of `EditCategory` and its counters are returned; other tables unchanged |
| Categories.ClearCategory | lib/db/categories.ts:135 | no transaction keeps the category; all others are unchanged; only the category field changes |
| Categories.DeleteCategory | lib/db/categories.ts:130-141 | a system category is refused with nothing changed; otherwise its transactions are nulled, its budgets and the row deleted |
| Categories.DeleteCascade | lib/db/categories.ts:130-141 | after the delete nothing refers to the category: no transaction, budget or row |
| Categories.Entries | lib/db/categories.ts:147 | what the reorder reads of each category: its id and order |
| Categories.EntriesDistinct | lib/db/categories.ts:143-158 | a keyed table gives distinct ids to reorder |
| Categories.ReorderCategories | lib/db/categories.ts:143-158 | an absent id changes nothing; otherwise the categories take the new orders of the splice and renumbering |
| Categories.ReorderCategoriesSpec | lib/db/categories.ts:143-158 | after a reorder the same categories have the orders 0..n-1, one each, and the dragged one lands at the target's index |
| Categories.WithKeyword | lib/db/categories.ts:160-171 | the list is unchanged iff the trimmed keyword is blank or already present ignoring case; otherwise the trimmed keyword is appended |
| Categories.WithKeywordIdempotent | lib/db/categories.ts:160-171 | adding the same keyword twice is adding it once |
| Categories.WithKeywordNoDuplicates | lib/db/categories.ts:160-171 | adding keeps the list free of case-insensitive duplicates |
| Categories.WithoutKeyword | lib/db/categories.ts:173-181 | the keyword is gone, every other keyword is kept, and an absent keyword changes nothing |
| Categories.AddKeywordRows | lib/db/categories.ts:160-171 | the category table after the call: unchanged for an unknown category, otherwise the category's keywords become `WithKeyword`; ids are kept |
| Categories.AddKeywordToCategory | lib/db/categories.ts:160-171 | an unknown category changes nothing; otherwise its keywords become `WithKeyword` |
| Categories.UpdateSameRow | lib/db/categories.ts:160-171 | writing a category's own keywords back changes nothing |
| Categories.RemoveKeywordFromCategory | lib/db/categories.ts:173-181 | an unknown category changes nothing; otherwise its keywords become `WithoutKeyword` |
| Imports.GetImports | lib/db/imports.ts:10-12 | the same imports, newest first |
| Imports.AddImport | lib/db/imports.ts:14-16 | exactly one record is added under the returned id |
| Imports.DeleteImport | lib/db/imports.ts:18-23 | the import's transactions and the record go; nothing else changes |
| Imports.DeleteImportCascade | lib/db/imports.ts:18-23 | no transaction of the import is left, every other one is kept, the count drops by the import's transactions, and only the record with that id goes |
| Imports.CountSplit | lib/db/imports.ts:20 | a test and its complement split the transactions |
| Budgets.GetBudgets | lib/db/budgets.ts:14-19 | with a month, exactly that month's budgets; without, every budget of the year |
| Budgets.GetBudgetForCategory | lib/db/budgets.ts:21-30 | the budget for the category and period, none iff there is none |
| Budgets.SetAmount | lib/db/budgets.ts:44-47 | only the row with the id takes the new amount |
| Budgets.SetThenGet | lib/db/budgets.ts:36-57 | after `setBudget` the lookup finds the returned budget with the new amount, and at most one budget per key remains |
| Budgets.SetBudget | lib/db/budgets.ts:36-57 | the table becomes the update-or-add result and its id is returned |
| Budgets.DeleteBudget | lib/db/budgets.ts:59-61 | exactly the budget with the id goes |
| Budgets.CopyAppends | lib/db/budgets.ts:63-86 | the copy only appends (the old table is a prefix, so existing targets keep their amounts); each added budget takes the next id, lies in the target period and carries a source budget's category and amount |
| Budgets.CopyCovered | lib/db/budgets.ts:72-84 | when every source category has a target, nothing is added |
| Budgets.CopyCovers | lib/db/budgets.ts:63-86 | afterwards every source category has a target |
| Budgets.CopyTwice | lib/db/budgets.ts:72-84 | a second identical copy adds nothing |
| Budgets.RunCopy | lib/db/budgets.ts:72-84 | the copy loop computes exactly `CopyBudgets` |
| Budgets.CopyBudgetToMonth | lib/db/budgets.ts:63-86 | the budgets table becomes the copy of the selected sources |
| Budgets.CopyKeyed | lib/db/budgets.ts:72-84 | the copy keeps the table keyed |
| Settings.GetSetting | lib/db/settings.ts:9-12 | the value stored under the key, undefined iff there is none |
| Settings.SetValue | lib/db/settings.ts:15-18 | the rows with the key take the value |
| Settings.SetThenGetSetting | lib/db/settings.ts:14-21 | after `setSetting(k, v)` the key reads `v` and every other key reads as before |
| Settings.SetSettingUnique | lib/db/settings.ts:14-21 | keys stay unique |
| Settings.GetAfterSet | lib/db/settings.ts:15-18 | reading a key after overwriting one |
| Settings.GetAppended | lib/db/settings.ts:19-20 | reading a key after adding a row |
| Settings.SetSettingRows | lib/db/settings.ts:14-21 | on the table and its counter: the overwrite-or-add result, the counter moved on only for an added row, ids still keyed and keys still unique |
| Settings.SetSetting | lib/db/settings.ts:14-21 | the settings table becomes the overwrite-or-add result; the id counter stays on an overwrite and moves on by one when a row is added |
| BulkImport.ExistingSignatures | app/api/transactions/bulk/route.ts:34-44 | exactly the signatures of the calling user's stored rows |
| BulkImport.SkipTestsAgree | app/api/transactions/bulk/route.ts:26-29 | on a row sent with both amounts as numbers, the route's duplicate test and the intended one agree |
| BulkImport.MissingAmountNeverSkipped | app/api/transactions/bulk/route.ts:26-29 | as written, a row sent with a missing or null amount is never a duplicate, not even of its own stored row |
| BulkImport.NewRow | app/api/transactions/bulk/route.ts:58-72 | the inserted row belongs to the user, has the id and the date, and stores the signature with the amounts as stored; that equals the signature the route checked iff both amounts were sent as numbers |
| BulkImport.NewRowDefaults | app/api/transactions/bulk/route.ts:62-68 | match text falls back to the description, source to "Manual", falsy ids to null; a missing or null amount is stored as 0; a net amount not sent is amount in minus amount out with null as 0, and NaN when an amount is missing |
| BulkImport.ToInsert | app/api/transactions/bulk/route.ts:48-73 | at most one inserted row per batch row |
| BulkImport.ToInsertRows | app/api/transactions/bulk/route.ts:48-73 | for the route's skip test (and any other), the inserted rows are the batch rows not skipped, in batch order, under consecutive ids, and inserted + skipped = total |
| BulkImport.NoSkipInsertsAll | app/api/transactions/bulk/route.ts:53 | with `skipDuplicates` false every row goes in and none is skipped |
| BulkImport.BatchDuplicatesKept | app/api/transactions/bulk/route.ts:32-56 | rows of one batch are not compared with each other |
| BulkImport.ResendReinserts | app/api/transactions/bulk/route.ts:26-56 | as written, re-sending a batch whose rows each lack a number for an amount inserts every row again |
| BulkImport.ResendInsertsNothing | app/api/transactions/bulk/route.ts:32-56 | with the intended test, re-sending a batch that went in inserts nothing |
| BulkImport.ToInsertAgree | app/api/transactions/bulk/route.ts:32-56 | two skip tests that agree on every batch row insert the same rows |
| BulkImport.ResendNumericInsertsNothing | app/api/transactions/bulk/route.ts:26-56 | with the route's own test, re-sending a batch whose amounts are all numbers, as the parsers send them, inserts nothing |
| BulkImport.PlanInserts | app/api/transactions/bulk/route.ts:48-73 | the loop builds exactly the rows the route's test keeps and counts the rows it skips |
| BulkImport.ToInsertKeyed | app/api/transactions/bulk/route.ts:76-79 | inserted rows keep the table keyed |
| BulkImport.SkipFlag | app/api/transactions/bulk/route.ts:12 | an absent `skipDuplicates` means true; a sent one counts by its truthiness |
| BulkImport.BulkTable | app/api/transactions/bulk/route.ts:12-88 | a missing or empty array gives 400 and an undated row 500, with the table unchanged; otherwise the rows the route's test keeps are appended, ids stay keyed, and the counts are answered |
| BulkImport.PostBulk | app/api/transactions/bulk/route.ts:12-88 | a missing or empty array is refused with nothing inserted; otherwise the rows the route's test keeps are appended and the counts answered; other tables unchanged |
| Recategorize.FindByName | app/api/transactions/recategorize/route.ts:27-44 | the user's first category of that name, none iff the user has none |
| Recategorize.Matches | app/api/transactions/recategorize/route.ts:74-85 | exactly the matchable categories one of whose keywords occurs in the text |
| Recategorize.Recategorized | app/api/transactions/recategorize/route.ts:69-104 | one row per row, in place |
| Recategorize.Counts | app/api/transactions/recategorize/route.ts:106-108 | updated + conflicts ≤ processed ≤ the number of rows |
| Recategorize.SingleMatchAssigns | app/api/transactions/recategorize/route.ts:87-98 | a row claimed by exactly one category moves to it, and one of its keywords occurs in the text |
| Recategorize.NoSingleMatchKeeps | app/api/transactions/recategorize/route.ts:99-104 | a row claimed by no category, or by several, is unchanged |
| Recategorize.TwoMatchesConflict | app/api/transactions/recategorize/route.ts:99-104 | two matchable categories claiming a row make it a conflict |
| Recategorize.RecategorizedChanges | app/api/transactions/recategorize/route.ts:27-104 | only the user's selected rows can change, and only their category |
| Recategorize.RecategorizeIdempotent | app/api/transactions/recategorize/route.ts:27-104 | a second run changes nothing |
| Recategorize.RunRecategorize | app/api/transactions/recategorize/route.ts:69-108 | the loop computes exactly the new rows and the counts |
| Recategorize.PostRecategorize | app/api/transactions/recategorize/route.ts:11-108 | the transactions become the re-categorised rows and the counts are answered; other tables unchanged |
| BudgetRoutes.GetBudgets | app/api/budgets/route.ts:14-49 | refused iff the year is missing; only the user's rows; a month absent, "null" or "" gives exactly the user's yearly budgets of that year |
| BudgetRoutes.GetBudgetsByNumber | app/api/budgets/route.ts:24-49 | a numeric year and month give exactly the user's budgets of that period |
| BudgetRoutes.UpsertThenFind | app/api/budgets/route.ts:92-155 | after the upsert the first budget the lookup finds is the answered one with the new amount, every other row is unchanged, at most one row is added, and at most one budget per key remains |
| BudgetRoutes.UpsertIdempotent | app/api/budgets/route.ts:92-153 | the same budget sent twice leaves the table as the first call left it |
| BudgetRoutes.PostBudget | app/api/budgets/route.ts:84-155 | a missing category, year or amount is refused with nothing changed; otherwise the upsert |
| BudgetRoutes.CopyRowsAppends | app/api/budgets/copy/route.ts:57-101 | the copy only appends, and `copied` is the number of rows added |
| BudgetRoutes.CopyRowsCovered | app/api/budgets/copy/route.ts:88-100 | when every source category has a target, nothing is added and `copied` is 0 |
| BudgetRoutes.CopyRowsCovers | app/api/budgets/copy/route.ts:57-101 | afterwards every source category has a target |
| BudgetRoutes.CopyTwice | app/api/budgets/copy/route.ts:88-100 | a repeated identical call copies 0 |
| BudgetRoutes.CopyRowsKeyed | app/api/budgets/copy/route.ts:57-101 | the copy keeps the table keyed |
| BudgetRoutes.RunCopy | app/api/budgets/copy/route.ts:57-101 | the loop computes exactly `CopyRows` |
| BudgetRoutes.PostCopy | app/api/budgets/copy/route.ts:13-101 | a missing year is refused; otherwise the user's yearly or monthly sources are copied and counted |
| Reorder.IndexOfId | app/api/categories/reorder/route.ts:28-29 | the first index holding the id, -1 iff none does |
| Reorder.Reordered | app/api/categories/reorder/route.ts:28-40 | none iff either id is absent; otherwise a permutation of the rows |
| Reorder.ReorderedMoves | app/api/categories/reorder/route.ts:39-40 | the dragged row lands at the target's index and the others keep their relative order |
| Reorder.PositionsOf | app/api/categories/reorder/route.ts:43-54 | renumbering gives the listed rows the orders 0..n-1, one each |
| Reorder.NewOrdersSpec | app/api/categories/reorder/route.ts:28-54 | the plan renumbers exactly the rows, one-to-one onto 0..n-1, with the dragged row at the target's index |
| Reorder.SameIds | app/api/categories/reorder/route.ts:39-40 | a permutation keeps the same ids |
| Reorder.DraggedLands | app/api/categories/reorder/route.ts:39-40 | the dragged row's new order is the target's old index |
| Reorder.Plan | app/api/categories/reorder/route.ts:28-54 | the splice and the renumbering return exactly the new orders |
| Reorder.Renumber | app/api/categories/reorder/route.ts:43-54 | the loop gives the row at index `i` the order `i` |
| ReorderRoutes.EntriesOf | app/api/portfolio/accounts/reorder/route.ts:21-30 | what the reorder reads of the rows in scope, in table order |
| ReorderRoutes.ApplyOrders | app/api/portfolio/accounts/reorder/route.ts:48-59 | only the user's rows that the plan names take a new order |
| ReorderRoutes.ReorderSpec | app/api/portfolio/accounts/reorder/route.ts:21-59 | rows out of scope unchanged; rows in scope get distinct orders in 0..n-1; the dragged row gets the target's index |
| ReorderRoutes.ApplyOrdersKeyed | app/api/portfolio/accounts/reorder/route.ts:48-59 | writing orders keeps the table keyed |
| ReorderRoutes.CategoryReorderSpec | app/api/categories/reorder/route.ts:21-54 | the user's categories get the orders 0..n-1, the dragged one at the target's index; other users' rows untouched |
| ReorderRoutes.AccountReorderSpec | app/api/portfolio/accounts/reorder/route.ts:21-59 | the same, within the user's accounts of one bucket; other buckets untouched |
| ReorderRoutes.ItemReorderSpec | app/api/portfolio/items/reorder/route.ts:21-59 | the same, within the user's items of one account |
| ReorderRoutes.ReorderCategoryRows | app/api/categories/reorder/route.ts:13-54 | missing ids give 400 and an id not found 404, with the table unchanged; otherwise the user's new orders are written and ids stay keyed |
| ReorderRoutes.PostReorderCategories | app/api/categories/reorder/route.ts:13-54 | missing ids give 400 and an id not found 404, with nothing changed; otherwise the new orders are written |
| ReorderRoutes.ReorderAccountRows | app/api/portfolio/accounts/reorder/route.ts:13-59 | missing fields give 400 and an id not found 404, with the table unchanged; otherwise the bucket's new orders are written and ids stay keyed |
| ReorderRoutes.PostReorderAccounts | app/api/portfolio/accounts/reorder/route.ts:13-59 | missing fields give 400 and an id not found 404, with nothing changed; otherwise the bucket's new orders are written |
| ReorderRoutes.ReorderItemRows | app/api/portfolio/items/reorder/route.ts:13-59 | missing fields give 400 and an id not found 404, with the table unchanged; otherwise the account's new orders are written and ids stay keyed |
| ReorderRoutes.PostReorderItems | app/api/portfolio/items/reorder/route.ts:13-59 | missing fields give 400 and an id not found 404, with nothing changed; otherwise the account's new orders are written |
| SettingsRoute.Stringify | app/api/settings/route.ts:85 | `String(value)`: strings as they are, "null", "true"/"false", and integers with a minus sign iff negative |
| SettingsRoute.StringifyIntRoundTrip | app/api/settings/route.ts:85 | a stored integer reads back as itself through `parseInt` |
| SettingsRoute.UserValue | app/api/settings/route.ts:13-31 | the user's value under the key, none iff the user has no row for it |
| SettingsRoute.UserMap | app/api/settings/route.ts:34-38 | the map's keys are exactly the user's keys |
| SettingsRoute.UserMapAgrees | app/api/settings/route.ts:13-38 | with unique keys, the whole map and the one-key lookup agree |
| SettingsRoute.GetSettings | app/api/settings/route.ts:7-54 | a non-empty key asks for one value, otherwise the whole map |
| SettingsRoute.PutTable | app/api/settings/route.ts:71-98 | an existing row is overwritten in place; otherwise one row is appended under the next id |
| SettingsRoute.PutThenGet | app/api/settings/route.ts:71-98 | after `PUT` the key reads the stored text for that user; every other user and key reads as before |
| SettingsRoute.PutKeepsInvariants | app/api/settings/route.ts:71-98 | `PUT` keeps each user's keys unique and the table keyed |
| SettingsRoute.PutSetting | app/api/settings/route.ts:57-100 | a missing or empty key, or a missing value, gives 400 with nothing changed; otherwise the upsert of `String(value)`, echoing key and value |
| Middleware.Gate | middleware.ts:9-42 | public pages and auth routes pass; without the cookie an API path gets 401 and a page is redirected to `/login`; with the cookie everything passes |
| Middleware.GatePassesIff | middleware.ts:9-42 | a request passes iff its path is public or it carries the cookie |
| Middleware.ApiNeverRedirected | middleware.ts:25-36 | an API path is never redirected |
| Middleware.RedirectTargetPasses | middleware.ts:35-36 | the redirect target passes without a cookie |
| Formatters.RelativeOf | lib/formatters.ts:220-233 | "just now" iff under a minute, future dates included; otherwise the first band that fits, with the floored count |
| Formatters.BandThresholds | lib/formatters.ts:226-233 | the band is read off thresholds of a minute, an hour, a day, 7, 30 and 365 days |
| Formatters.RelativeMonotone | lib/formatters.ts:226-233 | an older date never reads as a smaller band |
| Formatters.SevenDaysIsOneWeek | lib/formatters.ts:230 | seven whole days read as one week |
| Formatters.FormatRelativeDate | lib/formatters.ts:220-233 | under a minute reads "just now" |
| Formatters.RenderReadsBack | lib/formatters.ts:228-233 | the count in the text reads back as the count |
| Formatters.RenderPlural | lib/formatters.ts:228-233 | the unit is plural iff the count is not 1 |
| Formatters.MonthName | lib/formatters.ts:247-254 | 0..11 give the month names, any other index "" |
| Formatters.MonthNamesDistinct | lib/formatters.ts:247-254 | only valid months have a name, and each has its own |
| Formatters.MaskCurrency | lib/formatters.ts:296-300 | the mask, with a minus only when the sign is asked for and the amount is negative |
| Formatters.MaskHidesAmount | lib/formatters.ts:296-300 | amounts of the same sign give the same mask, and the mask holds no digit |
| Formatters.MaskPercent | lib/formatters.ts:307-309 | the constant "••%" |
| Formatters.WithSign | lib/formatters.ts:52-58 | `+` for zero and above, `-` below, then the formatted magnitude |
| Formatters.WithSignOpposite | lib/formatters.ts:156-159 | a value and its opposite differ only in the sign character |
| NumericInput.SplitDots | components/portfolio/EditSnapshotDialog.tsx:34 | a single piece exactly when the text has no dot, otherwise several |
| NumericInput.SplitJoin | components/portfolio/EditSnapshotDialog.tsx:34-36 | splitting at the dots and joining with dots gives the text back |
| NumericInput.ConcatSplit | components/portfolio/EditSnapshotDialog.tsx:36 | joining the pieces without dots is removing the dots |
| NumericInput.OneDotSpec | components/portfolio/EditSnapshotDialog.tsx:34-38 | the split-and-join keeps the first dot and removes every later one |
| NumericInput.ParseNumericInputShape | components/portfolio/EditSnapshotDialog.tsx:30-39 | the output holds only digits and dots, at most one dot, and keeps the cleaned text up to its first dot |
| NumericInput.ParseNumericInputIdempotent | components/portfolio/EditSnapshotDialog.tsx:30-39 | cleaning cleaned input changes nothing |

## Left out

- File decoding (`readFileToRows`, papaparse and xlsx) is I/O; the model starts from the decoded row matrix.
- `lib/parsers/banks/_template.ts` is scaffolding, and the parser registry is not part of this model. `BankParser` is not a trait: each bank is a module with `Detect`, `Validate` and `Parse`.
- The `try`/`catch` of the parse loops is left out: no modelled step throws. The 500 answers of the routes are left out too; the bulk import's throwing date conversion is the only one kept.
- Authentication (`requireAuth`, sessions, cookies and passwords) is a foreign call. The user is the `userId` parameter, and the gate sees only the cookie names.
- UI components, network clients, caches, `lib/settingsStore.ts` and `lib/db/client/settings.ts` are I/O.
- The thin single-statement routes are left out: transactions, imports, categories and accounts listing/creation.
- `lib/db/instance.ts` and `lib/db/migrate.ts` are not part of this model. Their unique keys are the stores' `Valid()` invariants.
- Uuids, timestamps (`createdAt`, `updatedAt`) and `importedAt` are left out; `importedAt` is an opaque number.
- Floating-point behaviour (rounding, NaN) is left out. Amounts are exact reals.
- `Intl` number and date formatting is left out. `Formatters.WithSign` takes the formatting of the magnitude as a parameter.
- JavaScript `Date` roll-over (31 February) and the local-versus-UTC offset are left out. Dates are (year, month, day) triples as `new Date` receives them; a stored instant is a UTC day plus a time of day. Whether a date is an Invalid Date is decided on its day count, with the roll-over counted in but the offset (a few hours at the two ends of the range) left out.
- BulkImport.NewRow: a batch row without a `description` is not modelled (the description is always text); the route would write "undefined" into its signature and hand the missing value to the insert.
- The short month names are left out: `lib/constants.ts` is not part of this model.
- `formatFileSize` is left out: it uses `Math.log`.
- The middleware's `matcher` config (static assets) is left out.
- SQL row order is left out. Queries read rows in table order, and a reorder breaks ties in `order` by id.
- SettingsRoute.PutSetting: JSON arrays, objects and fractional numbers sent as `value` are not modelled. `String` of those is left out.
- ParserUtils.DecimalPrefix: models `parseFloat` on text without an exponent, "Infinity" or a leading "+", which `parseAmount`'s cleaning already removes.
- Text.ToLower, Text.ToUpper: ASCII letters only; Unicode case mapping is left out. JavaScript's `toUpperCase` maps "ß" to "SS". This matters to addKeywordToCategory's case-insensitive duplicate test, which `Categories.WithKeyword` models with `Text.ToUpper`.
- BudgetRoutes.PostBudget: a JSON null field is not modelled. `None` means absent and is answered 400. The route's `amount === undefined` test lets a null amount through to the upsert, and what the database then does depends on a schema that is not part of this model.
- BudgetRoutes.PostCopy: a JSON null `fromYear` or `toYear` is not modelled. `None` means absent and is answered 400. The route's `=== undefined` test lets null through. A null `fromYear` then selects no rows and answers copied 0. A null `toYear` would add target rows with a null year.
- Budgets.GetBudgetForCategory: the yearly lookup (lib/db/budgets.ts:29) is modelled as intended, as the budget of that category and year whose month is null. The query `where({categoryId, year, month: null})` is served by the compound index `[year+month+categoryId]` (lib/db/instance.ts:35), and IndexedDB does not accept null as a key or index rows whose key holds one. So in the browser the yearly lookup fails or finds nothing. The yearly cases of `Budgets.SetThenGet`, `Budgets.SetBudget`, `Budgets.CopyCovers` and `Budgets.CopyTwice` therefore state the intended behaviour, not the browser's. The monthly cases are unaffected.
- Reorder.Reordered: the splice with an `overIndex` is modelled on a sequence. Dexie's and the SQL driver's per-row updates are one table assignment.

## Findings

| source | as written | input that shows it | evidently intended | confidence | as-written member | corrected member |
|---|---|---|---|---|---|---|
| app/api/transactions/bulk/route.ts:26-29 | the incoming signature writes the amounts as sent, so a missing `amountOut` or `amountIn` becomes "undefined" and a null one "null"; the stored row holds 0 (lines 63-64), so its signature says "0" | a batch row without `amountOut`, sent twice with `skipDuplicates` on | a stored row and the batch row it came from have the same signature, so a re-sent batch inserts nothing | not executed | BulkImport.ResendReinserts | BulkImport.ResendInsertsNothing |
