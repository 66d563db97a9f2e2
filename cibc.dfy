/** The CIBC statement parser: a CSV or spreadsheet export without header rows,
    one transaction per row with the date in column A (MM/DD/YYYY or YYYY-MM-DD),
    the description in column B, money out in column C and money in in column D,
    all amounts written without a currency sign. */
module Cibc {
  import opened Wrappers
  import opened Text
  import opened SeqUtil
  import opened ParserTypes
  import opened ParserUtils

  /** How many leading rows `detect` and `validate` look at. */
  const SAMPLE_SIZE: nat := 10

  // ---------------------------------------------------------------- dates

  /** `DATE_PATTERN_MDY` or `DATE_PATTERN_ISO` accepts the text. */
  predicate IsCibcDate(s: string) {
    MatchSlashDate(s).Some? || MatchIsoDate(s).Some?
  }

  /** `parseCIBCDate`: the ISO shape is tried first, then month/day/year. */
  function ParseCibcDate(s: string): (r: Option<Date>)
    ensures r.Some? ==> IsCibcDate(s) && InRange(r.value)
  {
    if MatchIsoDate(s).Some? then ParseDateISO(s)
    else if MatchSlashDate(s).Some? then ParseDateMDY(s)
    else None
  }

  /** An ISO-shaped text has no slash, so no text has both shapes. */
  lemma ShapesDisjoint(s: string)
    ensures !(MatchIsoDate(s).Some? && MatchSlashDate(s).Some?)
  {
    if MatchSlashDate(s).Some? {
      var (a, b, c) := MatchSlashDate(s).value;
      assert s[|a|] == '/';
      if MatchIsoDate(s).Some? {
        var (y, m, d) := MatchIsoDate(s).value;
        IsoHasNoSlash(y, m, d, |a|);
      }
    }
  }

  lemma IsoHasNoSlash(y: string, m: string, d: string, k: nat)
    requires IsoFields(y, m, d) && k < |y + "-" + m + "-" + d|
    ensures (y + "-" + m + "-" + d)[k] != '/'
  {
    var s := y + "-" + m + "-" + d;
    if k < 4 { assert s[k] == y[k]; }
    else if 5 <= k < 7 { assert s[k] == m[k - 5]; }
    else if 8 <= k { assert s[k] == d[k - 8]; }
  }

  /** The order of the two attempts does not matter: a CIBC date is whatever
      either the ISO reader or the month/day/year reader accepts. */
  lemma ParseCibcDateEither(s: string)
    ensures ParseCibcDate(s) == if ParseDateISO(s).Some? then ParseDateISO(s) else ParseDateMDY(s)
  {
    ShapesDisjoint(s);
  }

  /** Every date in range is read back from both of the texts CIBC writes. */
  lemma ParseCibcDateRoundTrip(d: Date)
    requires InRange(d)
    ensures ParseCibcDate(FormatISO(d)) == Some(d)
    ensures ParseCibcDate(FormatMDY(d)) == Some(d)
  {
    ParseDateISORoundTrip(d);
    ParseDateMDYRoundTrip(d);
    ParseCibcDateEither(FormatISO(d));
    ParseCibcDateEither(FormatMDY(d));
  }

  /** A CIBC date is never an Invalid Date, so the parse loop's `isNaN` test on it
      never fails; `CibcRow` leaves that test out. */
  lemma CibcDateValid(s: string)
    ensures ParseCibcDate(s).Some? ==> ValidTime(ParseCibcDate(s).value)
  {
    if ParseCibcDate(s).Some? {
      InRangeValid(ParseCibcDate(s).value);
    }
  }

  // ---------------------------------------------------------------- detect

  /** The first ten rows (`rows.slice(0, 10)`). */
  function Sample(rows: seq<Row>): (s: seq<Row>)
    ensures |s| <= SAMPLE_SIZE && |s| <= |rows|
    ensures s == rows[..|s|]
    ensures |rows| > 0 ==> |s| > 0
  {
    if |rows| <= SAMPLE_SIZE then rows else rows[..SAMPLE_SIZE]
  }

  /** A row `detect` counts: at least four cells, not all blank. */
  predicate Sampled(row: Row) {
    |row| >= 4 && !IsEmptyRow(row)
  }

  /** A counted row that looks like CIBC: a date in either shape, no dollar sign
      in either amount, four to six cells and a description. */
  predicate LooksCibc(row: Row) {
    Sampled(row)
    && IsCibcDate(GetCellString(row, 0))
    && '$' !in GetCellString(row, 2) && '$' !in GetCellString(row, 3)
    && 4 <= |row| <= 6
    && GetCellString(row, 1) != ""
  }

  /** The verdict of `detect`; the file itself is not consulted. */
  function DetectSpec(rows: seq<Row>): (r: DetectionResult)
    ensures r.detected <==> r.confidence != NoConfidence
    ensures |rows| == 0 ==> r == DetectionResult(false, NoConfidence, FileEmpty)
    ensures r.detected ==> CountWhere(Sample(rows), LooksCibc) > 0
    ensures |rows| > 0 && CountWhere(Sample(rows), LooksCibc) == CountWhere(Sample(rows), Sampled) > 0 ==>
      r == DetectionResult(true, High, FullMatch)
  {
    if |rows| == 0 then DetectionResult(false, NoConfidence, FileEmpty)
    else
      var sample := Sample(rows);
      var total := CountWhere(sample, Sampled);
      if total == 0 then DetectionResult(false, NoConfidence, NoValidDataRows)
      else Rate(CountWhere(sample, LooksCibc), total)
  }

  /** `cibcParser.detect`. */
  method Detect(fileName: string, rows: seq<Row>) returns (r: DetectionResult)
    ensures r == DetectSpec(rows)
  {
    if |rows| == 0 {
      return DetectionResult(false, NoConfidence, FileEmpty);
    }
    var sample := if |rows| <= 10 then rows else rows[..10];
    assert sample == Sample(rows);
    var matchCount, totalRows := 0, 0;
    for i := 0 to |sample|
      invariant totalRows == CountWhere(sample[..i], Sampled)
      invariant matchCount == CountWhere(sample[..i], LooksCibc)
    {
      CountWherePrefix(sample, i, Sampled);
      CountWherePrefix(sample, i, LooksCibc);
      var row := sample[i];
      if |row| < 4 {
        continue;
      }
      if IsEmptyRow(row) {
        continue;
      }
      totalRows := totalRows + 1;
      var dateStr := GetCellString(row, 0);
      var description := GetCellString(row, 1);
      var moneyOut := GetCellString(row, 2);
      var moneyIn := GetCellString(row, 3);
      var hasValidDate := MatchSlashDate(dateStr).Some? || MatchIsoDate(dateStr).Some?;
      var noDollarSigns := '$' !in moneyOut && '$' !in moneyIn;
      var hasRightColumnCount := |row| >= 4 && |row| <= 6;
      var hasDescription := |description| > 0;
      if hasValidDate && noDollarSigns && hasRightColumnCount && hasDescription {
        matchCount := matchCount + 1;
      }
    }
    assert sample[..|sample|] == sample;
    if totalRows == 0 {
      return DetectionResult(false, NoConfidence, NoValidDataRows);
    }
    r := Rate(matchCount, totalRows);
  }

  /** Only the first ten rows take part in detection. */
  lemma DetectIgnoresLaterRows(rows: seq<Row>, n: nat)
    requires SAMPLE_SIZE <= n <= |rows|
    ensures DetectSpec(rows[..n]) == DetectSpec(rows)
  {
    assert Sample(rows[..n]) == Sample(rows);
  }

  /** A dollar sign in an amount cell keeps a row from counting as CIBC-like. */
  lemma DollarSignNeverCibc(row: Row)
    requires '$' in GetCellString(row, 2) || '$' in GetCellString(row, 3)
    ensures !LooksCibc(row)
  {
  }

  // ---------------------------------------------------------------- validate

  /** A row with some cells but fewer than four, which `validate` reports on its own. */
  predicate IsShort(row: Row) {
    0 < |row| < 4
  }

  /** A row `validate` counts: at least four cells. */
  predicate Counted(row: Row) {
    |row| >= 4
  }

  predicate BadDate(row: Row) {
    Counted(row) && !IsCibcDate(GetCellString(row, 0))
  }

  predicate NoDescription(row: Row) {
    Counted(row) && GetCellString(row, 1) == ""
  }

  /** The per-row column-count errors, in row order, numbered from 1. */
  function ShortRowErrors(sample: seq<Row>): (errs: seq<Message>)
    ensures |errs| == CountWhere(sample, IsShort)
  {
    if sample == [] then []
    else
      var n := |sample| - 1;
      ShortRowErrors(sample[..n]) + (if IsShort(sample[n]) then [RowColumnCount(n + 1, |sample[n]|)] else [])
  }

  /** Each short row gets its error, and every error names a short row and its
      cell count. */
  lemma {:induction false} ShortRowErrorsMeans(sample: seq<Row>)
    ensures forall i :: 0 <= i < |sample| && IsShort(sample[i]) ==> RowColumnCount(i + 1, |sample[i]|) in ShortRowErrors(sample)
    ensures forall m :: m in ShortRowErrors(sample) ==>
      m.RowColumnCount? && 1 <= m.row <= |sample| && IsShort(sample[m.row - 1]) && m.found == |sample[m.row - 1]|
  {
    if sample != [] {
      var n := |sample| - 1;
      var init := sample[..n];
      ShortRowErrorsMeans(init);
      assert forall i :: 0 <= i < n ==> init[i] == sample[i];
    }
  }

  lemma ShortRowErrorsPrefix(sample: seq<Row>, i: nat)
    requires i < |sample|
    ensures ShortRowErrors(sample[..i + 1]) ==
      ShortRowErrors(sample[..i]) + (if IsShort(sample[i]) then [RowColumnCount(i + 1, |sample[i]|)] else [])
  {
    assert sample[..i + 1][..i] == sample[..i];
  }

  /** The report of `validate`. */
  function ValidateSpec(fileName: string, rows: seq<Row>): (r: ValidationResult)
    ensures r.isValid <==> r.errors == []
    ensures |rows| == 0 ==> r.errors == [CibcEmptyFile]
    ensures r.warnings == [] || r.warnings == [MissingDescriptions]
    ensures |rows| > 0 && CountWhere(Sample(rows), Counted) > 0 ==>
      (CibcDateMismatch in r.errors <==> 2 * CountWhere(Sample(rows), BadDate) > CountWhere(Sample(rows), Counted))
    ensures |rows| > 0 && CountWhere(Sample(rows), Counted) > 0 ==>
      (r.warnings == [MissingDescriptions] <==> 2 * CountWhere(Sample(rows), NoDescription) > CountWhere(Sample(rows), Counted))
    ensures |rows| > 0 && CountWhere(Sample(rows), Counted) == 0 ==> CibcNoValidRows in r.errors
    ensures |rows| > 0 ==> (r.isValid <==>
      CountWhere(Sample(rows), IsShort) == 0 && CountWhere(Sample(rows), Counted) > 0
      && 2 * CountWhere(Sample(rows), BadDate) <= CountWhere(Sample(rows), Counted))
    ensures |rows| > 0 ==> forall m :: m in r.errors ==>
      m in ShortRowErrors(Sample(rows)) || m == CibcDateMismatch || (m == CibcNoValidRows && CountWhere(Sample(rows), Counted) == 0)
  {
    if |rows| == 0 then ValidationResult(false, [CibcEmptyFile], [])
    else
      var sample := Sample(rows);
      var rowErrors := ShortRowErrors(sample);
      ShortRowErrorsMeans(sample);
      var valid := CountWhere(sample, Counted);
      if valid == 0 then ValidationResult(false, rowErrors + [CibcNoValidRows], [])
      else
        var dateErrors := if 2 * CountWhere(sample, BadDate) > valid then [CibcDateMismatch] else [];
        var warnings := if 2 * CountWhere(sample, NoDescription) > valid then [MissingDescriptions] else [];
        var errors := rowErrors + dateErrors;
        ValidationResult(errors == [], errors, warnings)
  }

  /** Each short sampled row is reported by its 1-based row number, and a missing
      description is never an error (only a warning). */
  lemma ValidateRowErrors(fileName: string, rows: seq<Row>)
    ensures MissingDescriptions !in ValidateSpec(fileName, rows).errors
    ensures forall i :: 0 <= i < |Sample(rows)| && IsShort(Sample(rows)[i]) ==>
      RowColumnCount(i + 1, |Sample(rows)[i]|) in ValidateSpec(fileName, rows).errors
  {
    ShortRowErrorsMeans(Sample(rows));
  }

  /** One pass of the validation loop over a row of at least four cells: it counts,
      and adds to the date and description tallies when its date has neither
      supported form or its description is blank. */
  method CheckRow(row: Row) returns (counted: nat, badDate: nat, noDescription: nat)
    ensures counted == (if Counted(row) then 1 else 0)
    ensures badDate == (if BadDate(row) then 1 else 0)
    ensures noDescription == (if NoDescription(row) then 1 else 0)
  {
    counted, badDate, noDescription := 0, 0, 0;
    if |row| < 4 {
      return;
    }
    counted := 1;
    var dateStr := GetCellString(row, 0);
    var description := GetCellString(row, 1);
    if MatchSlashDate(dateStr).None? && MatchIsoDate(dateStr).None? {
      badDate := 1;
    }
    if description == "" {
      noDescription := 1;
    }
  }

  /** The loop of `validate` over the sampled rows: the per-row errors and the three counters. */
  method ScanSample(sample: seq<Row>) returns (errors: seq<Message>, validRows: nat, invalidDateRows: nat, missingDescriptionRows: nat)
    ensures errors == ShortRowErrors(sample)
    ensures validRows == CountWhere(sample, Counted)
    ensures invalidDateRows == CountWhere(sample, BadDate)
    ensures missingDescriptionRows == CountWhere(sample, NoDescription)
  {
    errors := [];
    validRows, invalidDateRows, missingDescriptionRows := 0, 0, 0;
    for i := 0 to |sample|
      invariant errors == ShortRowErrors(sample[..i])
      invariant validRows == CountWhere(sample[..i], Counted)
      invariant invalidDateRows == CountWhere(sample[..i], BadDate)
      invariant missingDescriptionRows == CountWhere(sample[..i], NoDescription)
    {
      ShortRowErrorsPrefix(sample, i);
      var row := sample[i];
      if |row| > 0 && |row| < 4 {
        errors := errors + [RowColumnCount(i + 1, |row|)];
      }
      var counted, badDate, noDescription := CheckRow(row);
      CountWhereStep(sample, i, Counted, counted);
      CountWhereStep(sample, i, BadDate, badDate);
      CountWhereStep(sample, i, NoDescription, noDescription);
      validRows := validRows + counted;
      invalidDateRows := invalidDateRows + badDate;
      missingDescriptionRows := missingDescriptionRows + noDescription;
    }
    assert sample[..|sample|] == sample;
  }

  /** `cibcParser.validate`. */
  method Validate(fileName: string, rows: seq<Row>) returns (r: ValidationResult)
    ensures r == ValidateSpec(fileName, rows)
  {
    var warnings: seq<Message> := [];
    if |rows| == 0 {
      return ValidationResult(false, [CibcEmptyFile], warnings);
    }
    var sample := if |rows| <= 10 then rows else rows[..10];
    assert sample == Sample(rows);
    var errors, validRows, invalidDateRows, missingDescriptionRows := ScanSample(sample);
    if validRows == 0 {
      errors := errors + [CibcNoValidRows];
      return ValidationResult(false, errors, warnings);
    }
    if 2 * invalidDateRows > validRows {
      errors := errors + [CibcDateMismatch];
    }
    if 2 * missingDescriptionRows > validRows {
      warnings := warnings + [MissingDescriptions];
    }
    r := ValidationResult(errors == [], errors, warnings);
  }

  /** A short row among the first ten always makes the file invalid. */
  lemma ShortRowInvalid(fileName: string, rows: seq<Row>, i: nat)
    requires i < |rows| && i < SAMPLE_SIZE && IsShort(rows[i])
    ensures !ValidateSpec(fileName, rows).isValid
  {
    assert Sample(rows)[i] == rows[i];
    ShortRowErrorsMeans(Sample(rows));
  }

  // ---------------------------------------------------------------- parse

  function Abs(x: real): (r: real)
    ensures r >= 0.0 && (r == x || r == -x)
  {
    if x < 0.0 then -x else x
  }

  /** A CIBC row as a transaction: the magnitudes of the two amount columns are
      money out and money in. */
  function CibcTransaction(date: Date, description: string, outText: string, inText: string): (t: ParsedTransaction)
    ensures WellFormed(t)
    ensures t.amountOut == Abs(ParseAmount(outText)) && t.amountIn == Abs(ParseAmount(inText))
    ensures t.date == date && t.matchField == t.description == description
  {
    var moneyOut := Abs(ParseAmount(outText));
    var moneyIn := Abs(ParseAmount(inText));
    ParsedTransaction(date, description, description, moneyOut, moneyIn, moneyIn - moneyOut)
  }

  /** What the parse loop does with one row, numbered `rowNum` for messages. The
      loop's `isNaN` test is left out: by `CibcDateValid` it never fails. */
  function CibcRow(row: Row, rowNum: nat): (r: RowOutcome)
    ensures r.Skipped? <==> |row| < 4 || IsEmptyRow(row)
    ensures r.Failed? ==>
      (r.m == MissingDateOrDescription(rowNum) || r.m == InvalidDate(rowNum, GetCellString(row, 0)))
    ensures r == Failed(MissingDateOrDescription(rowNum)) <==>
      |row| >= 4 && !IsEmptyRow(row) && (GetCellString(row, 0) == "" || GetCellString(row, 1) == "")
    ensures r.Failed? && r.m.InvalidDate? <==>
      |row| >= 4 && !IsEmptyRow(row) && GetCellString(row, 0) != "" && GetCellString(row, 1) != ""
      && ParseCibcDate(GetCellString(row, 0)).None?
    ensures r.Parsed? <==>
      |row| >= 4 && !IsEmptyRow(row) && GetCellString(row, 0) != "" && GetCellString(row, 1) != ""
      && ParseCibcDate(GetCellString(row, 0)).Some?
    ensures r.Parsed? ==>
      WellFormed(r.t) && r.t.description == GetCellString(row, 1) != "" && r.t.matchField == r.t.description
      && Some(r.t.date) == ParseCibcDate(GetCellString(row, 0))
      && r.t.amountOut == Abs(ParseAmount(GetCellString(row, 2)))
      && r.t.amountIn == Abs(ParseAmount(GetCellString(row, 3)))
      && r.t.netAmount == r.t.amountIn - r.t.amountOut
  {
    if |row| < 4 || IsEmptyRow(row) then Skipped
    else
      var dateStr := GetCellString(row, 0);
      var description := GetCellString(row, 1);
      if dateStr == "" || description == "" then Failed(MissingDateOrDescription(rowNum))
      else match ParseCibcDate(dateStr)
        case None => Failed(InvalidDate(rowNum, dateStr))
        case Some(date) => Parsed(CibcTransaction(date, description, GetCellString(row, 2), GetCellString(row, 3)))
  }

  /** The outcome of each row, numbered from 1. */
  function Outcomes(rows: seq<Row>): (outs: seq<RowOutcome>)
    ensures |outs| == |rows|
  {
    seq(|rows|, i requires 0 <= i < |rows| => CibcRow(rows[i], i + 1))
  }

  /** The result of `parse`. */
  function ParseSpec(rows: seq<Row>): ParseResult {
    Finish(Gather(Outcomes(rows)))
  }

  /** The body of the parse loop for one row. */
  method ParseRow(row: Row, rowNum: nat) returns (o: RowOutcome)
    ensures o == CibcRow(row, rowNum)
  {
    if |row| < 4 {
      return Skipped;
    }
    if IsEmptyRow(row) {
      return Skipped;
    }
    var dateStr := GetCellString(row, 0);
    var description := GetCellString(row, 1);
    var moneyOutStr := GetCellString(row, 2);
    var moneyInStr := GetCellString(row, 3);
    if dateStr == "" || description == "" {
      return Failed(MissingDateOrDescription(rowNum));
    }
    var date := ParseCibcDate(dateStr);
    if date.None? {
      return Failed(InvalidDate(rowNum, dateStr));
    }
    o := Parsed(CibcTransaction(date.value, description, moneyOutStr, moneyInStr));
  }

  /** `cibcParser.parse`: transactions and row errors are collected, not thrown. */
  method Parse(fileName: string, rows: seq<Row>) returns (result: ParseResult)
    ensures result == ParseSpec(rows)
  {
    var transactions: seq<ParsedTransaction> := [];
    var errors: seq<Message> := [];
    ghost var outs := Outcomes(rows);
    for i := 0 to |rows|
      invariant ParseResult(transactions, errors) == Gather(outs[..i])
    {
      GatherPrefix(outs, i);
      var o := ParseRow(rows[i], i + 1);
      match o
      case Skipped =>
      case Failed(m) => errors := errors + [m];
      case Parsed(t) => transactions := transactions + [t];
    }
    assert outs[..|rows|] == outs;
    if transactions == [] && errors == [] {
      errors := errors + [NoValidTransactions];
    }
    result := ParseResult(transactions, errors);
  }

  /** Every transaction has non-negative money in and out, a net amount of money
      in minus money out, and its description as the matched text. */
  lemma ParseWellFormed(rows: seq<Row>)
    ensures forall t :: t in ParseSpec(rows).transactions ==>
      WellFormed(t) && t.matchField == t.description && t.description != "" && InRange(t.date)
  {
    var outs := Outcomes(rows);
    GatherMembers(outs);
    forall t | t in ParseSpec(rows).transactions
      ensures WellFormed(t) && t.matchField == t.description && t.description != "" && InRange(t.date)
    {
      assert Parsed(t) in outs;
      var i :| 0 <= i < |outs| && outs[i] == Parsed(t);
      ParsedRowFacts(rows, i);
    }
  }

  /** What a parsed data row holds. */
  lemma ParsedRowFacts(rows: seq<Row>, i: nat)
    requires i < |Outcomes(rows)| && Outcomes(rows)[i].Parsed?
    ensures var t := Outcomes(rows)[i].t;
      WellFormed(t) && t.matchField == t.description && t.description != "" && InRange(t.date)
  {
  }

  /** Row errors name the row they come from, counting from 1. */
  lemma ParseRowNumbers(rows: seq<Row>)
    ensures forall m :: m in ParseSpec(rows).errors ==>
      m == NoValidTransactions || ((m.MissingDateOrDescription? || m.InvalidDate?) && 1 <= m.row <= |rows|)
  {
    var outs := Outcomes(rows);
    var g := Gather(outs);
    GatherMembers(outs);
    forall m | m in ParseSpec(rows).errors
      ensures m == NoValidTransactions || ((m.MissingDateOrDescription? || m.InvalidDate?) && 1 <= m.row <= |rows|)
    {
      if m != NoValidTransactions {
        assert m in g.errors;
        assert Failed(m) in outs;
        var i :| 0 <= i < |outs| && outs[i] == Failed(m);
        FailedRowNumber(rows, i);
      }
    }
  }

  lemma FailedRowNumber(rows: seq<Row>, i: nat)
    requires i < |Outcomes(rows)| && Outcomes(rows)[i].Failed?
    ensures 1 <= Outcomes(rows)[i].m.row == i + 1 <= |rows|
    ensures Outcomes(rows)[i].m.MissingDateOrDescription? || Outcomes(rows)[i].m.InvalidDate?
  {
  }

  /** A parse always reports something. A file whose rows are all short or blank
      gives exactly the "no valid transactions" error. */
  lemma ParseReportsSomething(rows: seq<Row>)
    ensures ParseSpec(rows).transactions != [] || ParseSpec(rows).errors != []
    ensures (forall i :: 0 <= i < |rows| ==> |rows[i]| < 4 || IsEmptyRow(rows[i])) ==>
      ParseSpec(rows) == ParseResult([], [NoValidTransactions])
  {
    if forall i :: 0 <= i < |rows| ==> |rows[i]| < 4 || IsEmptyRow(rows[i]) {
      var outs := Outcomes(rows);
      forall k | 0 <= k < |outs| ensures outs[k].Skipped? {
        assert |rows[k]| < 4 || IsEmptyRow(rows[k]);
      }
      GatherAllSkipped(outs);
    }
  }
}
