/** The American Express (Canada) statement parser: a spreadsheet whose first twelve
    rows are account details and column headers, then one transaction per row with
    the date in column A ("16 Dec. 2025"), the description in column C, the amount
    with a dollar sign in column D and additional information in column J. */
module Amex {
  import opened Wrappers
  import opened Text
  import opened SeqUtil
  import opened ParserTypes
  import opened ParserUtils

  /** Rows before the data: the account details and the column headers. */
  const HEADER_ROWS: nat := 12

  /** How many data rows `detect` and `validate` look at. */
  const SAMPLE_SIZE: nat := 10

  // ---------------------------------------------------------------- the date shape

  /** `AMEX_DATE_PATTERN`, `/^\d{1,2}\s+[A-Za-z]{3,9}\.?\s+\d{4}$/`. Each part of the
      pattern is a run of one character class, and neighbouring classes are
      disjoint, so taking each run greedily decides the pattern. */
  predicate IsAmexDate(s: string) {
    var n := Span(s, IsDigit);
    1 <= n <= 2 && AfterDay(s[n..])
  }

  /** `\s+[A-Za-z]{3,9}\.?\s+\d{4}$` */
  predicate AfterDay(t: string) {
    var w := Span(t, IsSpace);
    w >= 1 && MonthAndYear(t[w..])
  }

  /** `[A-Za-z]{3,9}\.?\s+\d{4}$` */
  predicate MonthAndYear(t: string) {
    var n := Span(t, IsAsciiLetter);
    3 <= n <= 9 && AfterMonth(t[n..])
  }

  /** `\.?\s+\d{4}$` */
  predicate AfterMonth(t: string) {
    var u := if t != [] && t[0] == '.' then t[1..] else t;
    var w := Span(u, IsSpace);
    w >= 1 && |u[w..]| == 4 && AllDigits(u[w..])
  }

  /** The words of an AMEX date: a one- or two-digit day, a month word of three to
      nine letters, a four-digit year. */
  predicate AmexDateParts(a: string, w: string, y: string) {
    IsNumeral(a) && |a| <= 2 && IsWord(w) && 3 <= |w| <= 9 && |y| == 4 && AllDigits(y)
  }

  function Separator(dot: bool): string {
    if dot then ". " else " "
  }

  lemma AfterMonthOf(y: string, dot: bool)
    requires |y| == 4 && AllDigits(y)
    ensures AfterMonth(Separator(dot) + y)
  {
    var t := Separator(dot) + y;
    var u := " " + y;
    assert (if t != [] && t[0] == '.' then t[1..] else t) == u;
    SpanAt(u, 1, IsSpace);
    assert u[1..] == y;
  }

  lemma MonthAndYearOf(w: string, y: string, dot: bool)
    requires IsWord(w) && 3 <= |w| <= 9 && |y| == 4 && AllDigits(y)
    ensures MonthAndYear(w + (Separator(dot) + y))
  {
    var t := w + (Separator(dot) + y);
    assert forall k :: 0 <= k < |w| ==> t[k] == w[k];
    assert t[|w|] == Separator(dot)[0];
    SpanAt(t, |w|, IsAsciiLetter);
    assert t[|w|..] == Separator(dot) + y;
    AfterMonthOf(y, dot);
  }

  lemma AfterDayOf(w: string, y: string, dot: bool)
    requires IsWord(w) && 3 <= |w| <= 9 && |y| == 4 && AllDigits(y)
    ensures AfterDay(" " + (w + (Separator(dot) + y)))
  {
    var t := " " + (w + (Separator(dot) + y));
    assert t[1] == w[0];
    SpanAt(t, 1, IsSpace);
    assert t[1..] == w + (Separator(dot) + y);
    MonthAndYearOf(w, y, dot);
  }

  lemma DateText(a: string, w: string, y: string, dot: bool)
    ensures a + " " + w + Separator(dot) + y == a + (" " + (w + (Separator(dot) + y)))
  {
  }

  /** Every "DD Mon YYYY" or "DD Mon. YYYY" text fits the AMEX date shape. */
  lemma AmexDateOf(a: string, w: string, y: string, dot: bool)
    requires AmexDateParts(a, w, y)
    ensures IsAmexDate(a + " " + w + Separator(dot) + y)
  {
    var rest := " " + (w + (Separator(dot) + y));
    var s := a + rest;
    DateText(a, w, y, dot);
    assert forall k :: 0 <= k < |a| ==> s[k] == a[k];
    assert s[|a|] == ' ';
    SpanAt(s, |a|, IsDigit);
    assert s[|a|..] == rest;
    AfterDayOf(w, y, dot);
  }

  /** An AMEX date written with single spaces is read by `parseDateDMonY` as its
      day, the month named by the first three letters of its word, and its year. */
  lemma AmexDateParses(a: string, w: string, y: string, dot: bool)
    requires AmexDateParts(a, w, y)
    ensures IsAmexDate(a + " " + w + Separator(dot) + y)
    ensures ParseDateDMonY(a + " " + w + Separator(dot) + y)
      == DateFromWords(Some(DigitsValue(a)), Prefix3(ToLower(w)), Some(DigitsValue(y)))
  {
    AmexDateOf(a, w, y, dot);
    ParseDateDMonYShape(a, w, y, dot);
  }

  // ---------------------------------------------------------------- detect

  /** The data rows: everything after the header rows (`rows.slice(12)`). */
  function DataRows(rows: seq<Row>): (d: seq<Row>)
    ensures |d| == if |rows| <= HEADER_ROWS then 0 else |rows| - HEADER_ROWS
  {
    if |rows| <= HEADER_ROWS then [] else rows[HEADER_ROWS..]
  }

  /** Data row `i` is spreadsheet row `HEADER_ROWS + i`. */
  lemma DataRowsAt(rows: seq<Row>)
    ensures forall i :: 0 <= i < |DataRows(rows)| ==> DataRows(rows)[i] == rows[HEADER_ROWS + i]
  {
  }

  /** The first ten data rows, which `detect` and `validate` examine. */
  function Sample(rows: seq<Row>): (s: seq<Row>)
    ensures |s| == if |DataRows(rows)| <= SAMPLE_SIZE then |DataRows(rows)| else SAMPLE_SIZE
  {
    var d := DataRows(rows);
    if |d| <= SAMPLE_SIZE then d else d[..SAMPLE_SIZE]
  }

  /** The sample is the data rows from the first on, in order. */
  lemma SampleAt(rows: seq<Row>)
    ensures forall i :: 0 <= i < |Sample(rows)| ==> Sample(rows)[i] == rows[HEADER_ROWS + i]
  {
  }

  /** The amount text the detector and the validator read: column D, or column C
      when D is blank. */
  function AmountText(row: Row): (r: string)
    ensures r == "" <==> GetCellString(row, 3) == "" && GetCellString(row, 2) == ""
  {
    var d := GetCellString(row, 3);
    if d != "" then d else GetCellString(row, 2)
  }

  /** A row `detect` counts: at least four cells, not all blank. */
  predicate Sampled(row: Row) {
    |row| >= 4 && !IsEmptyRow(row)
  }

  /** A counted row that looks like AMEX: an AMEX date in column A and either a
      dollar sign in the amount or more than six cells. */
  predicate LooksAmex(row: Row) {
    Sampled(row) && IsAmexDate(GetCellString(row, 0)) && ('$' in AmountText(row) || |row| > 6)
  }

  /** The verdict of `detect`. */
  function DetectSpec(fileName: string, rows: seq<Row>): (r: DetectionResult)
    ensures r.detected <==> r.confidence != NoConfidence
    ensures !IsExcelFile(fileName) ==> r == DetectionResult(false, NoConfidence, MustBeExcel)
    ensures IsExcelFile(fileName) && |rows| < HEADER_ROWS + 1 ==> r == DetectionResult(false, NoConfidence, TooShort)
    ensures r.detected ==> IsExcelFile(fileName) && CountWhere(Sample(rows), LooksAmex) > 0
  {
    if !IsExcelFile(fileName) then DetectionResult(false, NoConfidence, MustBeExcel)
    else if |rows| < HEADER_ROWS + 1 then DetectionResult(false, NoConfidence, TooShort)
    else
      var sample := Sample(rows);
      var total := CountWhere(sample, Sampled);
      if total == 0 then DetectionResult(false, NoConfidence, NoValidDataRows)
      else Rate(CountWhere(sample, LooksAmex), total)
  }

  /** One pass of the detection loop over a sampled row: whether it counts, and
      whether it also looks like AMEX. */
  method SampleRow(row: Row) returns (sampled: nat, matched: nat)
    ensures sampled == (if Sampled(row) then 1 else 0)
    ensures matched == (if LooksAmex(row) then 1 else 0)
  {
    sampled, matched := 0, 0;
    if |row| < 4 {
      return;
    }
    if IsEmptyRow(row) {
      return;
    }
    sampled := 1;
    var dateStr := GetCellString(row, 0);
    var columnD := GetCellString(row, 3);
    var amountStr := if columnD != "" then columnD else GetCellString(row, 2);
    var hasAmexDate := IsAmexDate(dateStr);
    var hasDollarSign := '$' in amountStr;
    var hasMoreColumns := |row| > 6;
    if hasAmexDate && (hasDollarSign || hasMoreColumns) {
      matched := 1;
    }
  }

  /** `amexParser.detect`. */
  method Detect(fileName: string, rows: seq<Row>) returns (r: DetectionResult)
    ensures r == DetectSpec(fileName, rows)
  {
    if !IsExcelFile(fileName) {
      return DetectionResult(false, NoConfidence, MustBeExcel);
    }
    if |rows| < 13 {
      return DetectionResult(false, NoConfidence, TooShort);
    }
    var dataRows := rows[HEADER_ROWS..];
    var sample := if |dataRows| <= 10 then dataRows else dataRows[..10];
    assert sample == Sample(rows);
    var matchCount, totalRows := 0, 0;
    for i := 0 to |sample|
      invariant totalRows == CountWhere(sample[..i], Sampled)
      invariant matchCount == CountWhere(sample[..i], LooksAmex)
    {
      var sampled, matched := SampleRow(sample[i]);
      CountWhereStep(sample, i, Sampled, sampled);
      CountWhereStep(sample, i, LooksAmex, matched);
      totalRows := totalRows + sampled;
      matchCount := matchCount + matched;
    }
    assert sample[..|sample|] == sample;
    if totalRows == 0 {
      return DetectionResult(false, NoConfidence, NoValidDataRows);
    }
    r := Rate(matchCount, totalRows);
  }

  /** Only rows 13 to 22 take part in detection: rows after them never change the verdict. */
  lemma DetectIgnoresLaterRows(fileName: string, rows: seq<Row>, n: nat)
    requires HEADER_ROWS + SAMPLE_SIZE <= n <= |rows|
    ensures DetectSpec(fileName, rows[..n]) == DetectSpec(fileName, rows)
  {
    assert Sample(rows[..n]) == Sample(rows);
  }

  /** The header rows never change the verdict either. */
  lemma DetectIgnoresHeader(fileName: string, h1: seq<Row>, h2: seq<Row>, data: seq<Row>)
    requires |h1| == |h2| == HEADER_ROWS
    ensures DetectSpec(fileName, h1 + data) == DetectSpec(fileName, h2 + data)
  {
    assert DataRows(h1 + data) == data;
    assert DataRows(h2 + data) == data;
  }

  // ---------------------------------------------------------------- validate

  /** A row `validate` counts: at least three cells. */
  predicate Checked(row: Row) {
    |row| >= 3
  }

  predicate BadDate(row: Row) {
    Checked(row) && !IsAmexDate(GetCellString(row, 0))
  }

  predicate NoAmount(row: Row) {
    Checked(row) && AmountText(row) == ""
  }

  predicate HasCells(row: Row) {
    |row| > 0
  }

  /** The column-count check on the first data row that has any cell. */
  function ColumnCheck(dataRows: seq<Row>): (errs: seq<Message>)
    ensures errs == [] || (|errs| == 1 && errs[0].TooFewColumns? && 0 < errs[0].found < 4)
  {
    var k := FindIndex(dataRows, HasCells);
    if k >= 0 && |dataRows[k]| < 4 then [TooFewColumns(|dataRows[k]|)] else []
  }

  /** The report of `validate`. */
  function ValidateSpec(fileName: string, rows: seq<Row>): (r: ValidationResult)
    ensures r.isValid <==> r.errors == []
    ensures MissingAmounts !in r.errors
    ensures r.warnings == [] || r.warnings == [MissingAmounts]
    ensures !IsExcelFile(fileName) ==> r == ValidationResult(false, [AmexNotExcel], [])
    ensures IsExcelFile(fileName) && |rows| < HEADER_ROWS + 1 ==> r == ValidationResult(false, [AmexTooFewRows], [])
    ensures IsExcelFile(fileName) && |rows| >= HEADER_ROWS + 1 && CountWhere(Sample(rows), Checked) == 0 ==>
      r == ValidationResult(false, [AmexNoValidRows], [])
    ensures IsExcelFile(fileName) && |rows| >= HEADER_ROWS + 1 && CountWhere(Sample(rows), Checked) > 0 ==>
      && (AmexDateMismatch in r.errors <==> 2 * CountWhere(Sample(rows), BadDate) > CountWhere(Sample(rows), Checked))
      && (r.warnings == [MissingAmounts] <==> 2 * CountWhere(Sample(rows), NoAmount) > CountWhere(Sample(rows), Checked))
      && (forall m :: m in ColumnCheck(DataRows(rows)) ==> m in r.errors)
      && AmexNotExcel !in r.errors && AmexTooFewRows !in r.errors && AmexNoValidRows !in r.errors
    ensures IsExcelFile(fileName) && |rows| >= HEADER_ROWS + 1 && CountWhere(Sample(rows), Checked) > 0 ==>
      && (r.isValid <==> 2 * CountWhere(Sample(rows), BadDate) <= CountWhere(Sample(rows), Checked) && ColumnCheck(DataRows(rows)) == [])
      && (forall m :: m in r.errors ==> m == AmexDateMismatch || m in ColumnCheck(DataRows(rows)))
  {
    if !IsExcelFile(fileName) then ValidationResult(false, [AmexNotExcel], [])
    else if |rows| < HEADER_ROWS + 1 then ValidationResult(false, [AmexTooFewRows], [])
    else
      var sample := Sample(rows);
      var valid := CountWhere(sample, Checked);
      if valid == 0 then ValidationResult(false, [AmexNoValidRows], [])
      else
        var dateErrors := if 2 * CountWhere(sample, BadDate) > valid then [AmexDateMismatch] else [];
        var warnings := if 2 * CountWhere(sample, NoAmount) > valid then [MissingAmounts] else [];
        var errors := dateErrors + ColumnCheck(DataRows(rows));
        ValidationResult(errors == [], errors, warnings)
  }

  /** One pass of the validation loop over a sampled row: a row of at least three
      cells counts as checked, and adds to the date and amount tallies when its date
      is not an Amex date or it has no amount. */
  method CheckRow(row: Row) returns (checked: nat, badDate: nat, noAmount: nat)
    ensures checked == (if Checked(row) then 1 else 0)
    ensures badDate == (if BadDate(row) then 1 else 0)
    ensures noAmount == (if NoAmount(row) then 1 else 0)
  {
    checked, badDate, noAmount := 0, 0, 0;
    if |row| < 3 {
      return;
    }
    checked := 1;
    var dateStr := GetCellString(row, 0);
    var columnD := GetCellString(row, 3);
    var amountStr := if columnD != "" then columnD else GetCellString(row, 2);
    if !IsAmexDate(dateStr) {
      badDate := 1;
    }
    if amountStr == "" {
      noAmount := 1;
    }
  }

  /** The loop of `validate` over the sampled rows: the three counters. */
  method ScanSample(sample: seq<Row>) returns (validRows: nat, invalidDateRows: nat, missingAmountRows: nat)
    ensures validRows == CountWhere(sample, Checked)
    ensures invalidDateRows == CountWhere(sample, BadDate)
    ensures missingAmountRows == CountWhere(sample, NoAmount)
  {
    validRows, invalidDateRows, missingAmountRows := 0, 0, 0;
    for i := 0 to |sample|
      invariant validRows == CountWhere(sample[..i], Checked)
      invariant invalidDateRows == CountWhere(sample[..i], BadDate)
      invariant missingAmountRows == CountWhere(sample[..i], NoAmount)
    {
      var checked, badDate, noAmount := CheckRow(sample[i]);
      CountWhereStep(sample, i, Checked, checked);
      CountWhereStep(sample, i, BadDate, badDate);
      CountWhereStep(sample, i, NoAmount, noAmount);
      validRows := validRows + checked;
      invalidDateRows := invalidDateRows + badDate;
      missingAmountRows := missingAmountRows + noAmount;
    }
    assert sample[..|sample|] == sample;
  }

  /** `amexParser.validate`. */
  method Validate(fileName: string, rows: seq<Row>) returns (r: ValidationResult)
    ensures r == ValidateSpec(fileName, rows)
  {
    if !IsExcelFile(fileName) {
      return ValidationResult(false, [AmexNotExcel], []);
    }
    if |rows| < 13 {
      return ValidationResult(false, [AmexTooFewRows], []);
    }
    var dataRows := rows[HEADER_ROWS..];
    var sample := if |dataRows| <= 10 then dataRows else dataRows[..10];
    assert sample == Sample(rows);
    var validRows, invalidDateRows, missingAmountRows := ScanSample(sample);
    if validRows == 0 {
      return ValidationResult(false, [AmexNoValidRows], []);
    }
    var errors: seq<Message> := [];
    var warnings: seq<Message> := [];
    if 2 * invalidDateRows > validRows {
      errors := errors + [AmexDateMismatch];
    }
    if 2 * missingAmountRows > validRows {
      warnings := warnings + [MissingAmounts];
    }
    var k := FindIndex(dataRows, HasCells);
    if k >= 0 && |dataRows[k]| < 4 {
      errors := errors + [TooFewColumns(|dataRows[k]|)];
    }
    assert dataRows == DataRows(rows);
    r := ValidationResult(errors == [], errors, warnings);
  }

  // ---------------------------------------------------------------- parse

  /** Columns of a transaction row: a payment (column D blank) reads its amount
      from column C and its description from column I; any other row reads its
      amount from column D and its description from column J, or column C when J
      is blank. Returns (description, amount text). */
  function Columns(row: Row): (r: (string, string))
    ensures GetCellString(row, 3) == "" ==> r == (GetCellString(row, 8), GetCellString(row, 2))
    ensures GetCellString(row, 3) != "" ==> r.1 == GetCellString(row, 3)
    ensures GetCellString(row, 3) != "" && GetCellString(row, 9) != "" ==> r.0 == GetCellString(row, 9)
    ensures GetCellString(row, 3) != "" && GetCellString(row, 9) == "" ==> r.0 == GetCellString(row, 2)
  {
    var columnD := GetCellString(row, 3);
    if columnD == "" then (GetCellString(row, 8), GetCellString(row, 2))
    else
      var additionalInfo := GetCellString(row, 9);
      (if additionalInfo != "" then additionalInfo else GetCellString(row, 2), columnD)
  }

  /** An AMEX amount as a transaction: positive amounts are money out, negative
      ones money in. */
  function AmexTransaction(date: Date, description: string, amount: real): (t: ParsedTransaction)
    ensures WellFormed(t)
    ensures t.amountOut == (if amount > 0.0 then amount else 0.0)
    ensures t.amountIn == (if amount < 0.0 then -amount else 0.0)
    ensures t.matchField == t.description == description
  {
    ParsedTransaction(
      date, description, description,
      if amount > 0.0 then amount else 0.0,
      if amount < 0.0 then -amount else 0.0,
      if amount < 0.0 then -amount else -amount)
  }

  /** What the parse loop does with one data row, numbered `rowNum` for messages. */
  function AmexRow(row: Row, rowNum: nat): (r: RowOutcome)
    ensures r.Skipped? <==> IsEmptyRow(row)
    ensures r.Failed? ==>
      (r.m == MissingDateOrDescription(rowNum) || r.m == InvalidDate(rowNum, GetCellString(row, 0)))
    ensures r.Parsed? ==> WellFormed(r.t) && r.t.description != "" && r.t.matchField == r.t.description
    ensures r.Parsed? ==> ParseDateDMonY(GetCellString(row, 0)) == Some(r.t.date) && ValidTime(r.t.date)
    ensures r.Failed? && r.m.InvalidDate? <==>
      !IsEmptyRow(row) && GetCellString(row, 0) != "" && Columns(row).0 != ""
      && (ParseDateDMonY(GetCellString(row, 0)).None? || !ValidTime(ParseDateDMonY(GetCellString(row, 0)).value))
  {
    if |row| == 0 || IsEmptyRow(row) then Skipped
    else
      var dateStr := GetCellString(row, 0);
      var (description, amountStr) := Columns(row);
      if dateStr == "" || description == "" then Failed(MissingDateOrDescription(rowNum))
      else match ParseDateDMonY(dateStr)
        case None => Failed(InvalidDate(rowNum, dateStr))
        case Some(date) =>
          if !ValidTime(date) then Failed(InvalidDate(rowNum, dateStr))
          else Parsed(AmexTransaction(date, description, ParseAmount(amountStr)))
  }

  /** A row with a date and a description that `parseDateDMonY` reads becomes a
      transaction of the amount its amount column holds. */
  lemma AmexRowParsed(row: Row, rowNum: nat, date: Date, description: string, amountText: string)
    requires !IsEmptyRow(row) && GetCellString(row, 0) != ""
    requires Columns(row) == (description, amountText) && description != ""
    requires ParseDateDMonY(GetCellString(row, 0)) == Some(date) && ValidTime(date)
    ensures AmexRow(row, rowNum) == Parsed(AmexTransaction(date, description, ParseAmount(amountText)))
  {
  }

  /** The outcome of each data row, numbered from 13. */
  function Outcomes(rows: seq<Row>): (outs: seq<RowOutcome>)
    ensures |outs| == |DataRows(rows)|
  {
    var d := DataRows(rows);
    seq(|d|, i requires 0 <= i < |d| => AmexRow(d[i], HEADER_ROWS + i + 1))
  }

  /** The result of `parse`. */
  function ParseSpec(rows: seq<Row>): ParseResult {
    Finish(Gather(Outcomes(rows)))
  }

  /** The body of the parse loop for one data row. */
  method ParseRow(row: Row, rowNum: nat) returns (o: RowOutcome)
    ensures o == AmexRow(row, rowNum)
  {
    if |row| == 0 || IsEmptyRow(row) {
      return Skipped;
    }
    var dateStr := GetCellString(row, 0);
    var columnD := GetCellString(row, 3);
    var isPaymentRow := columnD == "";
    var description: string;
    var amountStr: string;
    if isPaymentRow {
      amountStr := GetCellString(row, 2);
      description := GetCellString(row, 8);
    } else {
      var originalDescription := GetCellString(row, 2);
      amountStr := columnD;
      var additionalInfo := GetCellString(row, 9);
      description := if additionalInfo != "" then additionalInfo else originalDescription;
    }
    assert (description, amountStr) == Columns(row);
    var matchField := description;
    if dateStr == "" || matchField == "" {
      return Failed(MissingDateOrDescription(rowNum));
    }
    var date := ParseDateDMonY(dateStr);
    if date.None? || !ValidTime(date.value) {
      return Failed(InvalidDate(rowNum, dateStr));
    }
    var amount := ParseAmount(amountStr);
    o := Parsed(AmexTransaction(date.value, matchField, amount));
  }

  /** `amexParser.parse`: transactions and row errors are collected, not thrown. */
  method Parse(rows: seq<Row>) returns (result: ParseResult)
    ensures result == ParseSpec(rows)
  {
    var transactions: seq<ParsedTransaction> := [];
    var errors: seq<Message> := [];
    var dataRows := if |rows| <= HEADER_ROWS then [] else rows[HEADER_ROWS..];
    ghost var outs := Outcomes(rows);
    for i := 0 to |dataRows|
      invariant ParseResult(transactions, errors) == Gather(outs[..i])
    {
      GatherPrefix(outs, i);
      var o := ParseRow(dataRows[i], HEADER_ROWS + i + 1);
      match o
      case Skipped =>
      case Failed(m) => errors := errors + [m];
      case Parsed(t) => transactions := transactions + [t];
    }
    assert outs[..|dataRows|] == outs;
    if transactions == [] && errors == [] {
      errors := errors + [NoValidTransactions];
    }
    result := ParseResult(transactions, errors);
  }

  /** Every transaction has non-negative money in and out, a net amount of money
      in minus money out, and its description as the matched text. */
  lemma ParseWellFormed(rows: seq<Row>)
    ensures forall t :: t in ParseSpec(rows).transactions ==>
      WellFormed(t) && t.matchField == t.description && t.description != ""
  {
    var outs := Outcomes(rows);
    GatherMembers(outs);
    forall t | t in ParseSpec(rows).transactions
      ensures WellFormed(t) && t.matchField == t.description && t.description != ""
    {
      assert Parsed(t) in outs;
      var i :| 0 <= i < |outs| && outs[i] == Parsed(t);
      ParsedRowFacts(rows, i);
    }
  }

  /** What a parsed data row holds. */
  lemma ParsedRowFacts(rows: seq<Row>, i: nat)
    requires i < |Outcomes(rows)| && Outcomes(rows)[i].Parsed?
    ensures var t := Outcomes(rows)[i].t;
      WellFormed(t) && t.matchField == t.description && t.description != ""
  {
  }

  /** Row errors name the spreadsheet row they come from: 13 for the first data row. */
  lemma ParseRowNumbers(rows: seq<Row>)
    ensures forall m :: m in ParseSpec(rows).errors ==>
      m == NoValidTransactions || ((m.MissingDateOrDescription? || m.InvalidDate?) && HEADER_ROWS < m.row <= |rows|)
  {
    var outs := Outcomes(rows);
    var g := Gather(outs);
    GatherMembers(outs);
    forall m | m in ParseSpec(rows).errors
      ensures m == NoValidTransactions || ((m.MissingDateOrDescription? || m.InvalidDate?) && HEADER_ROWS < m.row <= |rows|)
    {
      if m != NoValidTransactions {
        assert m in g.errors;
        assert Failed(m) in outs;
        var i :| 0 <= i < |outs| && outs[i] == Failed(m);
        FailedRowNumber(rows, i);
      }
    }
  }

  /** A failed data row's error names its spreadsheet row and is one of the two row
      errors. */
  lemma FailedRowNumber(rows: seq<Row>, i: nat)
    requires i < |Outcomes(rows)| && Outcomes(rows)[i].Failed?
    ensures Outcomes(rows)[i].m.row == HEADER_ROWS + i + 1 <= |rows|
    ensures Outcomes(rows)[i].m.MissingDateOrDescription? || Outcomes(rows)[i].m.InvalidDate?
  {
  }

  /** A parse always reports something: a transaction or an error. A file whose
      data rows are all blank gives exactly the "no valid transactions" error. */
  lemma ParseReportsSomething(rows: seq<Row>)
    ensures ParseSpec(rows).transactions != [] || ParseSpec(rows).errors != []
    ensures (forall i :: HEADER_ROWS <= i < |rows| ==> IsEmptyRow(rows[i])) ==>
      ParseSpec(rows) == ParseResult([], [NoValidTransactions])
  {
    if forall i :: HEADER_ROWS <= i < |rows| ==> IsEmptyRow(rows[i]) {
      var outs := Outcomes(rows);
      forall k | 0 <= k < |outs| ensures outs[k].Skipped? {
        assert IsEmptyRow(rows[HEADER_ROWS + k]);
      }
      GatherAllSkipped(outs);
    }
  }

  /** The header rows never change the parse. */
  lemma ParseIgnoresHeader(h1: seq<Row>, h2: seq<Row>, data: seq<Row>)
    requires |h1| == |h2| == HEADER_ROWS
    ensures ParseSpec(h1 + data) == ParseSpec(h2 + data)
  {
    assert DataRows(h1 + data) == data;
    assert DataRows(h2 + data) == data;
  }
}
