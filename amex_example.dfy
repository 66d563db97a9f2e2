/** The statement row the AMEX parser documents: a card purchase on 16 December
    2025 of $4.50 whose additional information reads "Local purchase". */
module AmexExample {
  import opened Wrappers
  import opened Text
  import opened SeqUtil
  import opened ParserTypes
  import opened ParserUtils
  import opened Amex

  function ExampleRow(): Row {
    [Some("16 Dec. 2025"), Some("16 Dec. 2025"), Some("Coffee Shop"), Some("$4.50"),
     Some(""), Some(""), Some(""), Some(""), Some(""), Some("Local purchase")]
  }

  function ExampleTransaction(): ParsedTransaction {
    ParsedTransaction(Date(2025, 11, 16), "Local purchase", "Local purchase", 4.5, 0.0, -4.5)
  }

  /** A present cell without surrounding white space reads as itself. */
  lemma CellOf(row: Row, i: nat, text: string)
    requires i < |row| && row[i] == Some(text)
    requires text != [] && !IsSpace(text[0]) && !IsSpace(text[|text| - 1])
    ensures GetCellString(row, i) == text
  {
  }

  lemma DateCell()
    ensures GetCellString(ExampleRow(), 0) == "16 Dec. 2025"
  {
  }

  /** The amount cell reads as itself: its first and last characters are not spaces. */
  lemma AmountCell()
    ensures GetCellString(ExampleRow(), 3) == "$4.50"
  {
    var text := "$4.50";
    assert text[0] == '$' && text[|text| - 1] == '0';
    CellOf(ExampleRow(), 3, text);
  }

  lemma InfoCell()
    ensures GetCellString(ExampleRow(), 9) == "Local purchase"
  {
  }

  lemma DateWords()
    ensures "16 Dec. 2025" == "16" + " " + "Dec" + Separator(true) + "2025"
    ensures AmexDateParts("16", "Dec", "2025")
  {
  }

  lemma DayAndYear()
    ensures DigitsValue("16") == 16 && DigitsValue("2025") == 2025
  {
    assert "16"[..1] == "1" && "1"[..0] == "";
    assert "2025"[..3] == "202" && "202"[..2] == "20" && "20"[..1] == "2" && "2"[..0] == "";
  }

  lemma MonthWord()
    ensures Prefix3(ToLower("Dec")) == "dec"
  {
  }

  lemma DecemberKey()
    ensures "dec" in MONTH_MAP && MONTH_MAP["dec"] == 11
  {
  }

  lemma ExampleDateWords()
    ensures IsAmexDate("16 Dec. 2025")
    ensures ParseDateDMonY("16 Dec. 2025") == DateFromWords(Some(16), "dec", Some(2025))
  {
    DateWords();
    AmexDateParses("16", "Dec", "2025", true);
    calc {
      ParseDateDMonY("16 Dec. 2025");
      ParseDateDMonY("16" + " " + "Dec" + Separator(true) + "2025");
      DateFromWords(Some(DigitsValue("16")), Prefix3(ToLower("Dec")), Some(DigitsValue("2025")));
      { DayAndYear(); MonthWord(); }
      DateFromWords(Some(16), "dec", Some(2025));
    }
  }

  lemma DecemberDate()
    ensures DateFromWords(Some(16), "dec", Some(2025)) == Some(Date(2025, 11, 16))
  {
    DecemberKey();
    assert FullYear(2025) == 2025;
  }

  lemma ExampleDate()
    ensures IsAmexDate("16 Dec. 2025")
    ensures ParseDateDMonY("16 Dec. 2025") == Some(Date(2025, 11, 16))
    ensures ValidTime(Date(2025, 11, 16))
  {
    ExampleDateWords();
    DecemberDate();
    InRangeValid(Date(2025, 11, 16));
  }

  /** "16 Dec 25" names 16 December 1925: `new Date` reads the years 0..99 as 1900..1999. */
  lemma TwoDigitYear()
    ensures DateFromWords(Some(16), "dec", Some(25)) == Some(Date(1925, 11, 16))
  {
    DecemberKey();
  }

  /** "16 Dec 300000" is read as a date, but one past the last valid time value, so
      the row fails with an invalid-date message. */
  lemma HugeYearInvalid()
    ensures DateFromWords(Some(16), "dec", Some(300000)) == Some(Date(300000, 11, 16))
    ensures !ValidTime(Date(300000, 11, 16))
  {
    DecemberKey();
    assert 300000 / 400 == 750;
  }

  lemma ExampleAmount()
    ensures ParseAmount("$4.50") == 4.5
  {
    AmountOf("$4.50", "$", "4", "50");
    FourFifty();
  }

  /** An amount written after a currency prefix, as one text. */
  lemma AmountOf(text: string, pre: string, i: string, f: string)
    requires text == pre + i + "." + f
    requires forall ch :: ch in pre ==> !IsAmountChar(ch)
    requires IsNumeral(i) && AllDigits(f)
    ensures ParseAmount(text) == DecimalValue(i, f)
  {
    CurrencyAmount(pre, i, f);
  }

  lemma FourFifty()
    ensures DecimalValue("4", "50") == 4.5
  {
  }

  lemma ExampleLooksAmex()
    ensures Sampled(ExampleRow()) && LooksAmex(ExampleRow())
  {
    DateCell();
    AmountCell();
    ExampleDate();
    assert '$' in AmountText(ExampleRow()) by {
      assert AmountText(ExampleRow()) == "$4.50";
      assert "$4.50"[0] == '$';
    }
  }

  lemma ExampleNotEmpty()
    ensures !IsEmptyRow(ExampleRow())
  {
    DateCell();
    EmptyRowIffBlankCells(ExampleRow());
  }

  lemma ExampleColumns()
    ensures Columns(ExampleRow()) == ("Local purchase", "$4.50")
  {
    AmountCell();
    InfoCell();
  }

  lemma ExampleTransactionOf()
    ensures AmexTransaction(Date(2025, 11, 16), "Local purchase", 4.5) == ExampleTransaction()
  {
  }

  lemma ExampleOutcome()
    ensures AmexRow(ExampleRow(), 13) == Parsed(ExampleTransaction())
  {
    DateCell();
    ExampleNotEmpty();
    ExampleDate();
    ExampleColumns();
    AmexRowParsed(ExampleRow(), 13, Date(2025, 11, 16), "Local purchase", "$4.50");
    ExampleAmount();
    ExampleTransactionOf();
  }

  lemma CountOne(p: Row -> bool)
    requires p(ExampleRow())
    ensures CountWhere([ExampleRow()], p) == 1
  {
  }

  lemma ExampleDetect(fileName: string, header: seq<Row>)
    requires |header| == HEADER_ROWS && IsExcelFile(fileName)
    ensures DetectSpec(fileName, header + [ExampleRow()]) == DetectionResult(true, High, FullMatch)
  {
    var rows := header + [ExampleRow()];
    assert Sample(rows) == [ExampleRow()] by {
      assert DataRows(rows) == [ExampleRow()];
    }
    ExampleLooksAmex();
    CountOne(Sampled);
    CountOne(LooksAmex);
    assert CountWhere(Sample(rows), Sampled) == 1 && CountWhere(Sample(rows), LooksAmex) == 1;
    assert Rate(1, 1) == DetectionResult(true, High, FullMatch);
  }

  /** A single data row after the header yields a single outcome, numbered 13. */
  lemma OutcomesOne(header: seq<Row>, r: Row)
    requires |header| == HEADER_ROWS
    ensures Outcomes(header + [r]) == [AmexRow(r, HEADER_ROWS + 1)]
  {
    assert DataRows(header + [r])[0] == r;
  }

  lemma ExampleOutcomes(header: seq<Row>)
    requires |header| == HEADER_ROWS
    ensures Outcomes(header + [ExampleRow()]) == [Parsed(ExampleTransaction())]
  {
    OutcomesOne(header, ExampleRow());
    ExampleOutcome();
  }

  lemma GatherOne(t: ParsedTransaction)
    ensures Gather([Parsed(t)]) == ParseResult([t], [])
  {
  }

  lemma ExampleParse(header: seq<Row>)
    requires |header| == HEADER_ROWS
    ensures ParseSpec(header + [ExampleRow()]) == ParseResult([ExampleTransaction()], [])
  {
    ExampleOutcomes(header);
    GatherOne(ExampleTransaction());
  }

  /** A spreadsheet of twelve header rows and the documented row, named like an
      Excel file, is detected as AMEX with high confidence and parses to the one
      transaction: 4.50 out on 16 December 2025, matched on "Local purchase". */
  lemma WorkedExample(fileName: string, header: seq<Row>)
    requires |header| == HEADER_ROWS
    requires EndsWith(ToLower(fileName), ".xlsx")
    ensures DetectSpec(fileName, header + [ExampleRow()]) == DetectionResult(true, High, FullMatch)
    ensures ParseSpec(header + [ExampleRow()]) == ParseResult([ExampleTransaction()], [])
  {
    ExampleDetect(fileName, header);
    ExampleParse(header);
  }
}
