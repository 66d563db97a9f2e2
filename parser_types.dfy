/** The shapes shared by every bank parser: decoded cells and rows, the parsed
    transaction, the detection verdict, the validation report and the parse result.
    The `BankParser` interface itself is not a declaration here: each bank module
    offers `Detect`, `Validate` and `Parse` with the same signatures. */
module ParserTypes {
  import opened Wrappers

  /** A decoded cell: `None` for `null`/`undefined`, otherwise the cell's text
      (what `toString()` gives for it). */
  type Cell = Option<string>
  type Row = seq<Cell>

  /** A calendar date as `new Date(year, month, day)` receives it: month is 0-based. */
  datatype Date = Date(year: int, month: int, day: int)

  /** The year `new Date(year, month, day)` uses: 0..99 are read as 1900..1999. */
  function FullYear(year: int): (y: int)
    ensures 0 <= year <= 99 ==> y == 1900 + year
    ensures !(0 <= year <= 99) ==> y == year
    ensures y < 0 || y >= 100
  {
    if 0 <= year <= 99 then 1900 + year else year
  }

  /** `new Date(year, month, day)`. */
  function NewDate(year: int, month: int, day: int): Date {
    Date(FullYear(year), month, day)
  }

  /** The number of days from 1 January 1970 to the date, the day of the month
      counted on from the first (so 31 February is 3 March), months beyond 0..11
      carried into the year. */
  function DayNumber(d: Date): int {
    var y0 := d.year + d.month / 12;
    var m := d.month % 12;
    var y := if m <= 1 then y0 - 1 else y0;
    var era := y / 400;
    var yoe := y - era * 400;
    var doy := (153 * ((m + 10) % 12) + 2) / 5 + d.day - 1;
    era * 146097 + yoe * 365 + yoe / 4 - yoe / 100 + doy - 719468
  }

  /** `!isNaN(date.getTime())`: the time value lies within 100,000,000 days of
      1 January 1970. */
  predicate ValidTime(d: Date) {
    -100000000 <= DayNumber(d) <= 100000000
  }

  /** Day numbers count from the epoch and advance one per day. */
  lemma DayNumberFacts(d: Date)
    ensures DayNumber(Date(1970, 0, 1)) == 0
    ensures DayNumber(Date(2000, 2, 1)) == 11017
    ensures DayNumber(Date(d.year, d.month, d.day + 1)) == DayNumber(d) + 1
  {
    assert 1969 / 400 == 4 && (0 + 10) % 12 == 10 && (153 * 10 + 2) / 5 == 306;
    assert 2000 / 400 == 5 && (2 + 10) % 12 == 0;
  }

  datatype ParsedTransaction = ParsedTransaction(
    date: Date,
    description: string,
    matchField: string,
    amountOut: real,
    amountIn: real,
    netAmount: real)

  /** The documented meaning of the three amount fields: money out and money in are
      non-negative and the net amount is money in minus money out. */
  predicate WellFormed(t: ParsedTransaction) {
    t.amountOut >= 0.0 && t.amountIn >= 0.0 && t.netAmount == t.amountIn - t.amountOut
  }

  datatype Confidence = High | Medium | Low | NoConfidence

  /** Why a detector decided as it did; the bank is implied by the detector. */
  datatype Reason =
    | MustBeExcel
    | TooShort
    | FileEmpty
    | NoValidDataRows
    | FullMatch
    | PartialMatch
    | PossibleMatch
    | NoMatch

  datatype DetectionResult = DetectionResult(detected: bool, confidence: Confidence, reason: Reason)

  /** Errors and warnings of validation and parsing, with the values the source
      interpolates into its messages. */
  datatype Message =
    | AmexNotExcel
    | AmexTooFewRows
    | AmexNoValidRows
    | AmexDateMismatch
    | MissingAmounts
    | TooFewColumns(found: nat)
    | CibcEmptyFile
    | RowColumnCount(row: nat, found: nat)
    | CibcNoValidRows
    | CibcDateMismatch
    | MissingDescriptions
    | MissingDateOrDescription(row: nat)
    | InvalidDate(row: nat, text: string)
    | NoValidTransactions

  datatype ValidationResult = ValidationResult(isValid: bool, errors: seq<Message>, warnings: seq<Message>)

  /** Validation errors block parsing, warnings do not. */
  predicate MayParse(v: ValidationResult) {
    v.isValid
  }

  datatype ParseResult = ParseResult(transactions: seq<ParsedTransaction>, errors: seq<Message>)

  /** What the parse loop does with one row: nothing, push a transaction, or push an error. */
  datatype RowOutcome = Skipped | Parsed(t: ParsedTransaction) | Failed(m: Message)

  /** The detectors' "ratio at least 0.8 / 0.5 / 0.2" ladder, by cross-multiplication. */
  function Rate(matched: nat, total: nat): (r: DetectionResult)
    requires 0 < total
    ensures r.detected <==> r.confidence != NoConfidence
  {
    if 5 * matched >= 4 * total then DetectionResult(true, High, FullMatch)
    else if 2 * matched >= total then DetectionResult(true, Medium, PartialMatch)
    else if 5 * matched >= total then DetectionResult(true, Low, PossibleMatch)
    else DetectionResult(false, NoConfidence, NoMatch)
  }

  /** The ladder stated on the ratio itself, as the source writes it. */
  function RatioConfidence(ratio: real): Confidence {
    if ratio >= 0.8 then High
    else if ratio >= 0.5 then Medium
    else if ratio >= 0.2 then Low
    else NoConfidence
  }

  /** Cross-multiplication decides exactly what comparing `matched / total` decides. */
  lemma RateMatchesRatio(matched: nat, total: nat)
    requires 0 < total
    ensures Rate(matched, total).confidence == RatioConfidence(matched as real / total as real)
  {
    var m, t := matched as real, total as real;
    RatioAtLeast(m, t, 0.8);
    RatioAtLeast(m, t, 0.5);
    RatioAtLeast(m, t, 0.2);
  }

  lemma RatioAtLeast(m: real, t: real, c: real)
    requires t > 0.0
    ensures m / t >= c <==> m >= c * t
  {
    var x := m / t;
    assert x * t == m;
    RatioScale(x, t, c);
  }

  lemma RatioScale(x: real, t: real, c: real)
    requires t > 0.0
    ensures x >= c <==> x * t >= c * t
  {
    if x >= c {
      assert x * t - c * t == (x - c) * t;
    } else {
      assert c * t - x * t == (c - x) * t;
    }
  }

  /** More matching rows among the same sample never lower the confidence. */
  lemma RateMonotone(m1: nat, m2: nat, total: nat)
    requires 0 < total && m1 <= m2
    ensures Rank(Rate(m1, total).confidence) <= Rank(Rate(m2, total).confidence)
  {
  }

  function Rank(c: Confidence): nat {
    match c
    case NoConfidence => 0
    case Low => 1
    case Medium => 2
    case High => 3
  }

  /** The transactions and errors the parse loop has pushed after the given outcomes. */
  function Gather(outs: seq<RowOutcome>): (r: ParseResult)
    ensures |r.transactions| + |r.errors| <= |outs|
  {
    if outs == [] then ParseResult([], [])
    else
      var p := Gather(outs[..|outs| - 1]);
      match outs[|outs| - 1]
      case Skipped => p
      case Parsed(t) => ParseResult(p.transactions + [t], p.errors)
      case Failed(m) => ParseResult(p.transactions, p.errors + [m])
  }

  /** Every transaction pushed comes from a parsed row and every error from a failed
      one, and no such row is dropped. */
  lemma {:induction false} GatherMembers(outs: seq<RowOutcome>)
    ensures forall t :: t in Gather(outs).transactions <==> Parsed(t) in outs
    ensures forall m :: m in Gather(outs).errors <==> Failed(m) in outs
  {
    if outs != [] {
      var init := outs[..|outs| - 1];
      GatherMembers(init);
      assert outs == init + [outs[|outs| - 1]];
    }
  }

  lemma GatherPrefix(outs: seq<RowOutcome>, i: nat)
    requires i < |outs|
    ensures Gather(outs[..i + 1]) == match outs[i]
      case Skipped => Gather(outs[..i])
      case Parsed(t) => ParseResult(Gather(outs[..i]).transactions + [t], Gather(outs[..i]).errors)
      case Failed(m) => ParseResult(Gather(outs[..i]).transactions, Gather(outs[..i]).errors + [m])
  {
    assert outs[..i + 1][..i] == outs[..i];
  }

  /** Rows that are all skipped push nothing. */
  lemma {:induction false} GatherAllSkipped(outs: seq<RowOutcome>)
    requires forall k :: 0 <= k < |outs| ==> outs[k].Skipped?
    ensures Gather(outs) == ParseResult([], [])
  {
    if outs != [] {
      GatherAllSkipped(outs[..|outs| - 1]);
    }
  }

  /** The closing step of `parse`: with neither a transaction nor an error, the
      single "no valid transactions" error. */
  function Finish(p: ParseResult): (r: ParseResult)
    ensures r.transactions == p.transactions
    ensures r.errors != [] || r.transactions != []
    ensures p.errors != [] || p.transactions != [] ==> r == p
    ensures p.errors == [] && p.transactions == [] ==> r.errors == [NoValidTransactions]
  {
    if p.transactions == [] && p.errors == [] then ParseResult([], [NoValidTransactions]) else p
  }
}
