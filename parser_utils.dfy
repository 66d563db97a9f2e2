/** The cell, date and amount helpers every bank parser uses. The regular
    expressions of the source are written out as hand-made matchers whose results
    carry the matched groups. */
module ParserUtils {
  import opened Wrappers
  import opened Text
  import opened ParserTypes

  // ---------------------------------------------------------------- file names

  predicate IsExcelFile(fileName: string) {
    var lower := ToLower(fileName);
    EndsWith(lower, ".xlsx") || EndsWith(lower, ".xls") || EndsWith(lower, ".xlsm")
  }

  predicate IsCsvFile(fileName: string) {
    EndsWith(ToLower(fileName), ".csv")
  }

  lemma EndsWithLast(s: string, suffix: string)
    ensures EndsWith(s, suffix) && suffix != [] ==> s[|s| - 1] == suffix[|suffix| - 1]
  {
  }

  /** No file name is both a spreadsheet and a CSV file. */
  lemma ExcelAndCsvDisjoint(fileName: string)
    ensures !(IsExcelFile(fileName) && IsCsvFile(fileName))
  {
    var lower := ToLower(fileName);
    EndsWithLast(lower, ".csv");
    EndsWithLast(lower, ".xlsx");
    EndsWithLast(lower, ".xls");
    EndsWithLast(lower, ".xlsm");
  }

  /** The extension tests ignore the case of the file name. */
  lemma ExtensionIgnoresCase(fileName: string)
    ensures IsExcelFile(ToUpper(fileName)) == IsExcelFile(fileName)
    ensures IsCsvFile(ToUpper(fileName)) == IsCsvFile(fileName)
  {
    assert ToLower(ToUpper(fileName)) == ToLower(fileName);
  }

  // ---------------------------------------------------------------- cells and rows

  /** `getCellString`: the trimmed text of cell `i`, or "" for a missing or null cell. */
  function GetCellString(row: Row, i: nat): (r: string)
    ensures r == [] || (!IsSpace(r[0]) && !IsSpace(r[|r| - 1]))
    ensures r != [] ==> i < |row| && row[i].Some?
  {
    if i < |row| && row[i].Some? then Trim(row[i].value) else ""
  }

  /** A cell reads as non-empty exactly when it is present and holds a character
      other than white space. */
  lemma GetCellStringBlank(row: Row, i: nat)
    ensures GetCellString(row, i) != [] <==>
      i < |row| && row[i].Some? && exists k :: 0 <= k < |row[i].value| && !IsSpace(row[i].value[k])
  {
    if i < |row| && row[i].Some? {
      TrimEmpty(row[i].value);
    }
  }

  /** `isEmptyRow`: no cells, or every cell null or blank after trimming. */
  predicate IsEmptyRow(row: Row) {
    |row| == 0 || forall k :: 0 <= k < |row| ==> row[k].None? || Trim(row[k].value) == ""
  }

  /** A row is empty exactly when every cell reads as "" through `getCellString`. */
  lemma EmptyRowIffBlankCells(row: Row)
    ensures IsEmptyRow(row) <==> forall i: nat :: GetCellString(row, i) == ""
  {
    if !IsEmptyRow(row) {
      var k :| 0 <= k < |row| && row[k].Some? && Trim(row[k].value) != "";
      assert GetCellString(row, k) != "";
    }
  }

  // ---------------------------------------------------------------- date shapes

  /** `/^(\d{1,2})\/(\d{1,2})\/(\d{4})$/`, returning the three groups. */
  function MatchSlashDate(s: string): (r: Option<(string, string, string)>)
    ensures r.Some? ==>
      var (a, b, c) := r.value;
      s == a + "/" + b + "/" + c && SlashFields(a, b, c)
  {
    var n1 := Span(s, IsDigit);
    if n1 < 1 || n1 > 2 || n1 >= |s| || s[n1] != '/' then None
    else
      SpanIs(s, IsDigit);
      var t := s[n1 + 1..];
      SpanIs(t, IsDigit);
      var n2 := Span(t, IsDigit);
      if n2 < 1 || n2 > 2 || n2 >= |t| || t[n2] != '/' then None
      else
        var c := t[n2 + 1..];
        if |c| == 4 && AllDigits(c) then
          assert s == s[..n1] + "/" + t[..n2] + "/" + c;
          Some((s[..n1], t[..n2], c))
        else None
  }

  /** Groups that fit `\d{1,2}`, `\d{1,2}` and `\d{4}`. */
  predicate SlashFields(a: string, b: string, c: string) {
    1 <= |a| <= 2 && 1 <= |b| <= 2 && |c| == 4 && AllDigits(a) && AllDigits(b) && AllDigits(c)
  }

  /** Every string of the slash shape is matched, with its own groups. */
  lemma MatchSlashDateOf(a: string, b: string, c: string)
    requires SlashFields(a, b, c)
    ensures MatchSlashDate(a + "/" + b + "/" + c) == Some((a, b, c))
  {
    var s := a + "/" + b + "/" + c;
    assert s[|a|] == '/';
    assert forall k :: 0 <= k < |a| ==> s[k] == a[k];
    SpanAt(s, |a|, IsDigit);
    var t := s[|a| + 1..];
    assert t == b + "/" + c;
    assert t[|b|] == '/';
    assert forall k :: 0 <= k < |b| ==> t[k] == b[k];
    SpanAt(t, |b|, IsDigit);
    assert t[|b| + 1..] == c;
    assert s[..|a|] == a && t[..|b|] == b;
  }

  /** `/^(\d{4})-(\d{2})-(\d{2})$/`, returning the three groups. */
  function MatchIsoDate(s: string): (r: Option<(string, string, string)>)
    ensures r.Some? ==>
      var (y, m, d) := r.value;
      s == y + "-" + m + "-" + d && IsoFields(y, m, d)
  {
    if |s| == 10 && AllDigits(s[..4]) && s[4] == '-' && AllDigits(s[5..7]) && s[7] == '-' && AllDigits(s[8..]) then
      assert s == s[..4] + "-" + s[5..7] + "-" + s[8..];
      Some((s[..4], s[5..7], s[8..]))
    else None
  }

  predicate IsoFields(y: string, m: string, d: string) {
    |y| == 4 && |m| == 2 && |d| == 2 && AllDigits(y) && AllDigits(m) && AllDigits(d)
  }

  lemma MatchIsoDateOf(y: string, m: string, d: string)
    requires IsoFields(y, m, d)
    ensures MatchIsoDate(y + "-" + m + "-" + d) == Some((y, m, d))
  {
    var s := y + "-" + m + "-" + d;
    assert s[..4] == y && s[5..7] == m && s[8..] == d;
  }

  // ---------------------------------------------------------------- numeric dates

  /** The range check shared by the numeric date parsers, then `new Date(year, month - 1, day)`. */
  function DateFromFields(year: nat, month: nat, day: nat): Option<Date> {
    if month < 1 || month > 12 || day < 1 || day > 31 then None
    else Some(NewDate(year, month - 1, day))
  }

  /** A date the numeric parsers can produce: a 0-based month, a day in 1..31, and a
      four-digit year that is not one of 0..99, which `new Date` reads as 1900..1999. */
  predicate InRange(d: Date) {
    100 <= d.year <= 9999 && 0 <= d.month <= 11 && 1 <= d.day <= 31
  }

  /** Such a date is never an Invalid Date. */
  lemma InRangeValid(d: Date)
    requires InRange(d)
    ensures ValidTime(d)
  {
  }

  /** `parseDateMDY`: month/day/year. */
  function ParseDateMDY(s: string): (r: Option<Date>)
    ensures r.Some? ==> MatchSlashDate(s).Some? && InRange(r.value)
  {
    match MatchSlashDate(s)
    case None => None
    case Some((a, b, c)) => DateFromFields(DigitsValue(c), DigitsValue(a), DigitsValue(b))
  }

  /** `parseDateDMY`: day/month/year. */
  function ParseDateDMY(s: string): (r: Option<Date>)
    ensures r.Some? ==> MatchSlashDate(s).Some? && InRange(r.value)
  {
    match MatchSlashDate(s)
    case None => None
    case Some((a, b, c)) => DateFromFields(DigitsValue(c), DigitsValue(b), DigitsValue(a))
  }

  /** `parseDateISO`: year-month-day. */
  function ParseDateISO(s: string): (r: Option<Date>)
    ensures r.Some? ==> MatchIsoDate(s).Some? && InRange(r.value)
  {
    match MatchIsoDate(s)
    case None => None
    case Some((y, m, d)) => DateFromFields(DigitsValue(y), DigitsValue(m), DigitsValue(d))
  }

  /** On the slash shape, the M/D/Y and D/M/Y readings take the same fields in
      swapped roles; each accepts exactly when its month is 1..12 and its day 1..31. */
  lemma SlashDateReadings(a: string, b: string, c: string)
    requires SlashFields(a, b, c)
    ensures ParseDateMDY(a + "/" + b + "/" + c).Some? <==>
      1 <= DigitsValue(a) <= 12 && 1 <= DigitsValue(b) <= 31
    ensures ParseDateDMY(a + "/" + b + "/" + c).Some? <==>
      1 <= DigitsValue(b) <= 12 && 1 <= DigitsValue(a) <= 31
    ensures ParseDateMDY(a + "/" + b + "/" + c).Some? ==>
      ParseDateMDY(a + "/" + b + "/" + c).value == Date(FullYear(DigitsValue(c)), DigitsValue(a) - 1, DigitsValue(b))
    ensures ParseDateDMY(a + "/" + b + "/" + c).Some? ==>
      ParseDateDMY(a + "/" + b + "/" + c).value == Date(FullYear(DigitsValue(c)), DigitsValue(b) - 1, DigitsValue(a))
  {
    MatchSlashDateOf(a, b, c);
  }

  /** `n` written with exactly `width` digits (leading zeros as needed). */
  function Digits(n: nat, width: nat): (r: string)
    ensures |r| == width && AllDigits(r)
    ensures n < Pow10(width) ==> DigitsValue(r) == n
  {
    if width == 0 then []
    else
      var p := Digits(n / 10, width - 1);
      var r := p + ['0' + (n % 10) as char];
      assert r[..|r| - 1] == p;
      r
  }

  function FormatISO(d: Date): string
    requires InRange(d)
  {
    Digits(d.year, 4) + "-" + Digits(d.month + 1, 2) + "-" + Digits(d.day, 2)
  }

  function FormatMDY(d: Date): string
    requires InRange(d)
  {
    NatToString(d.month + 1) + "/" + NatToString(d.day) + "/" + Digits(d.year, 4)
  }

  /** Every date in range is read back from its ISO text. */
  lemma ParseDateISORoundTrip(d: Date)
    requires InRange(d)
    ensures ParseDateISO(FormatISO(d)) == Some(d)
  {
    MatchIsoDateOf(Digits(d.year, 4), Digits(d.month + 1, 2), Digits(d.day, 2));
  }

  /** Every date in range is read back from its unpadded month/day/year text. */
  lemma ParseDateMDYRoundTrip(d: Date)
    requires InRange(d)
    ensures ParseDateMDY(FormatMDY(d)) == Some(d)
  {
    MatchSlashDateOf(NatToString(d.month + 1), NatToString(d.day), Digits(d.year, 4));
  }

  // ---------------------------------------------------------------- named-month dates

  /** `MONTH_MAP`: month names and abbreviations to 0-based months. */
  const MONTH_MAP: map<string, int> := map[
    "jan" := 0, "january" := 0,
    "feb" := 1, "february" := 1,
    "mar" := 2, "march" := 2,
    "apr" := 3, "april" := 3,
    "may" := 4,
    "jun" := 5, "june" := 5,
    "jul" := 6, "july" := 6,
    "aug" := 7, "august" := 7,
    "sep" := 8, "sept" := 8, "september" := 8,
    "oct" := 9, "october" := 9,
    "nov" := 10, "november" := 10,
    "dec" := 11, "december" := 11]

  lemma MonthMapRange()
    ensures forall k :: k in MONTH_MAP ==> 0 <= MONTH_MAP[k] <= 11
  {
  }

  /** `substring(0, 3)`. */
  function Prefix3(s: string): string {
    if |s| < 3 then s else s[..3]
  }

  /** The checks shared by the named-month parsers, then `new Date(year, month, day)`.
      The year is not bounded, so the date returned may be an Invalid Date
      (`!ValidTime`); the callers test for that. */
  function DateFromWords(day: Option<int>, monthKey: string, year: Option<int>): (r: Option<Date>)
    ensures r.Some? <==> day.Some? && year.Some? && monthKey in MONTH_MAP && 1 <= day.value <= 31
    ensures r.Some? ==> r.value == Date(FullYear(year.value), MONTH_MAP[monthKey], day.value)
    ensures r.Some? ==> 1 <= r.value.day <= 31 && 0 <= r.value.month <= 11
  {
    MonthMapRange();
    if day.None? || year.None? || monthKey !in MONTH_MAP || day.value < 1 || day.value > 31 then None
    else Some(NewDate(year.value, MONTH_MAP[monthKey], day.value))
  }

  /** `parseDateDMonY`: every "." removed, trimmed, lower-cased, split on white space
      into exactly day, month word and year. */
  function ParseDateDMonY(s: string): (r: Option<Date>)
    ensures r.Some? ==> 1 <= r.value.day <= 31 && 0 <= r.value.month <= 11
  {
    if s == [] then None
    else
      var parts := SplitOnSpaces(ToLower(Trim(RemoveChar(s, '.'))));
      if |parts| != 3 then None
      else DateFromWords(ParseIntPrefix(parts[0]), Prefix3(parts[1]), ParseIntPrefix(parts[2]))
  }

  /** `parseDateMonDY`: every "," removed, then month word, day and year. */
  function ParseDateMonDY(s: string): (r: Option<Date>)
    ensures r.Some? ==> 1 <= r.value.day <= 31 && 0 <= r.value.month <= 11
  {
    if s == [] then None
    else
      var parts := SplitOnSpaces(ToLower(Trim(RemoveChar(s, ','))));
      if |parts| != 3 then None
      else DateFromWords(ParseIntPrefix(parts[1]), Prefix3(parts[0]), ParseIntPrefix(parts[2]))
  }

  predicate IsWord(w: string) {
    w != [] && forall k :: 0 <= k < |w| ==> IsAsciiLetter(w[k])
  }

  predicate IsNumeral(s: string) {
    s != [] && AllDigits(s)
  }

  /** Lower-casing a word of letters gives a word of letters. */
  lemma LowerWord(w: string)
    requires IsWord(w)
    ensures IsWord(ToLower(w))
  {
  }

  /** Three white-space-free fields joined by single spaces split back into those fields. */
  lemma SplitThree(a: string, b: string, c: string)
    requires a != [] && b != []
    requires NoSpace(a) && NoSpace(b) && NoSpace(c)
    ensures SplitOnSpaces(a + " " + b + " " + c) == [a, b, c]
  {
    var bc := b + " " + c;
    calc {
      SplitOnSpaces(a + " " + b + " " + c);
      { assert a + " " + b + " " + c == a + " " + bc; }
      SplitOnSpaces(a + " " + bc);
      { assert bc[0] == b[0]; SplitCons(a, bc); }
      [a] + SplitOnSpaces(bc);
      { SplitNoSpace(c); SplitCons(b, c); }
      [a] + ([b] + [c]);
    }
  }

  /** Removing a character that occurs only in the separators of three fields. */
  lemma RemoveFromSeparators(a: string, b: string, c: string, sep: string, ch: char)
    requires ch != ' ' && ch !in a && ch !in b && ch !in c
    requires sep == [ch, ' '] || sep == " "
    ensures RemoveChar(a + " " + b + sep + c, ch) == a + " " + b + " " + c
  {
    RemoveCharAppend(a + " " + b + sep, c, ch);
    RemoveCharAppend(a + " " + b, sep, ch);
    RemoveCharAppend(a + " ", b, ch);
    RemoveCharAppend(a, " ", ch);
    RemoveCharAbsent(a, ch);
    RemoveCharAbsent(b, ch);
    RemoveCharAbsent(c, ch);
    RemoveCharAbsent(" ", ch);
    assert RemoveChar(sep, ch) == " " by {
      if sep != " " { assert sep[1..] == " "; }
    }
  }

  lemma LowerJoin3(p: string, q: string, r: string)
    ensures ToLower(p + " " + q + " " + r) == ToLower(p) + " " + ToLower(q) + " " + ToLower(r)
  {
    ToLowerAppend(p + " " + q + " ", r);
    ToLowerAppend(p + " " + q, " ");
    ToLowerAppend(p + " ", q);
    ToLowerAppend(p, " ");
    assert ToLower(" ") == " " by { assert ToLower(" ")[0] == Lower(' '); }
  }

  /** Trimming, lower-casing and splitting three space-separated fields. */
  lemma NormalizeThree(p: string, q: string, r: string)
    requires p != [] && q != [] && r != []
    requires !IsSpace(p[0]) && !IsSpace(r[|r| - 1])
    requires NoSpace(ToLower(p)) && NoSpace(ToLower(q)) && NoSpace(ToLower(r))
    ensures SplitOnSpaces(ToLower(Trim(p + " " + q + " " + r))) == [ToLower(p), ToLower(q), ToLower(r)]
  {
    var x := p + " " + q + " " + r;
    calc {
      SplitOnSpaces(ToLower(Trim(x)));
      { assert x[0] == p[0] && x[|x| - 1] == r[|r| - 1]; TrimNoop(x); }
      SplitOnSpaces(ToLower(x));
      { LowerJoin3(p, q, r); }
      SplitOnSpaces(ToLower(p) + " " + ToLower(q) + " " + ToLower(r));
      { SplitThree(ToLower(p), ToLower(q), ToLower(r)); }
      [ToLower(p), ToLower(q), ToLower(r)];
    }
  }

  lemma NumeralNoSpace(a: string)
    requires AllDigits(a)
    ensures ToLower(a) == a && NoSpace(a)
  {
    ToLowerNoLetters(a);
  }

  lemma WordNoSpace(w: string)
    requires IsWord(w)
    ensures NoSpace(ToLower(w)) && !IsSpace(w[0])
  {
    LowerWord(w);
  }

  /** The documented "DD Mon YYYY" and "DD Mon. YYYY" shapes are read as day,
      month (by the first three letters of the word) and year. */
  lemma ParseDateDMonYShape(a: string, w: string, y: string, dot: bool)
    requires IsNumeral(a) && IsWord(w) && IsNumeral(y)
    ensures ParseDateDMonY(a + " " + w + (if dot then ". " else " ") + y)
      == DateFromWords(Some(DigitsValue(a)), Prefix3(ToLower(w)), Some(DigitsValue(y)))
  {
    var s := a + " " + w + (if dot then ". " else " ") + y;
    calc {
      SplitOnSpaces(ToLower(Trim(RemoveChar(s, '.'))));
      { RemoveFromSeparators(a, w, y, if dot then ". " else " ", '.'); }
      SplitOnSpaces(ToLower(Trim(a + " " + w + " " + y)));
      { NumeralNoSpace(a); NumeralNoSpace(y); WordNoSpace(w); NormalizeThree(a, w, y); }
      [ToLower(a), ToLower(w), ToLower(y)];
      { NumeralNoSpace(a); NumeralNoSpace(y); }
      [a, ToLower(w), y];
    }
    ParseIntOfDigits(a);
    ParseIntOfDigits(y);
  }

  /** The documented "Mon DD, YYYY" and "Mon DD YYYY" shapes are read as month,
      day and year. */
  lemma ParseDateMonDYShape(w: string, a: string, y: string, comma: bool)
    requires IsWord(w) && IsNumeral(a) && IsNumeral(y)
    ensures ParseDateMonDY(w + " " + a + (if comma then ", " else " ") + y)
      == DateFromWords(Some(DigitsValue(a)), Prefix3(ToLower(w)), Some(DigitsValue(y)))
  {
    var s := w + " " + a + (if comma then ", " else " ") + y;
    calc {
      SplitOnSpaces(ToLower(Trim(RemoveChar(s, ','))));
      { RemoveFromSeparators(w, a, y, if comma then ", " else " ", ','); }
      SplitOnSpaces(ToLower(Trim(w + " " + a + " " + y)));
      { NumeralNoSpace(a); NumeralNoSpace(y); WordNoSpace(w); NormalizeThree(w, a, y); }
      [ToLower(w), ToLower(a), ToLower(y)];
      { NumeralNoSpace(a); NumeralNoSpace(y); }
      [ToLower(w), a, y];
    }
    ParseIntOfDigits(a);
    ParseIntOfDigits(y);
  }

  // ---------------------------------------------------------------- amounts

  predicate IsAmountChar(c: char) {
    IsDigit(c) || c == '.' || c == ',' || c == '-'
  }

  /** `replace(/[^0-9.,\-]/g, "")`: digits, dots, commas and minus signs, in order. */
  function CleanAmount(s: string): (r: string)
    ensures forall c :: c in r <==> c in s && IsAmountChar(c)
  {
    KeepMembers(s, IsAmountChar);
    Keep(s, IsAmountChar)
  }

  /** The separator decision: a comma after the last dot makes the comma the decimal
      separator (dots dropped, the first comma becomes a dot); otherwise commas are dropped. */
  function NormalizeAmount(c: string): (r: string)
    ensures forall x :: x in r ==> x in c || x == '.'
  {
    RemoveCharMembers(c, '.');
    RemoveCharMembers(c, ',');
    if LastIndexOf(c, ',') > LastIndexOf(c, '.') then ReplaceFirst(RemoveChar(c, '.'), ',', '.')
    else RemoveChar(c, ',')
  }

  /** The value of a numeral with integer digits `i` and fraction digits `f`. */
  function DecimalValue(i: string, f: string): real
    requires AllDigits(i) && AllDigits(f)
  {
    DigitsValue(i) as real + DigitsValue(f) as real / Pow10(|f|) as real
  }

  /** `parseFloat` on text without exponent or "Infinity": leading white space, an
      optional sign, then the longest `digits[.digits]` prefix; `None` (NaN) when
      that prefix has no digit. */
  function DecimalPrefix(s: string): Option<real> {
    var t := TrimStart(s);
    var neg := t != [] && t[0] == '-';
    var body := if t != [] && (t[0] == '-' || t[0] == '+') then t[1..] else t;
    match UnsignedPrefix(body)
    case None => None
    case Some(v) => Some(if neg then -v else v)
  }

  /** `parseFloat` yields a number only from text that holds a digit. */
  lemma DecimalPrefixHasDigit(s: string)
    ensures DecimalPrefix(s).Some? ==> exists k :: 0 <= k < |s| && IsDigit(s[k])
  {
    var t := TrimStart(s);
    var body := if t != [] && (t[0] == '-' || t[0] == '+') then t[1..] else t;
    if UnsignedPrefix(body).Some? {
      UnsignedHasDigit(body);
      var k :| 0 <= k < |body| && IsDigit(body[k]);
      assert body[k] in s;
    }
  }

  lemma UnsignedHasDigit(body: string)
    requires UnsignedPrefix(body).Some?
    ensures exists k :: 0 <= k < |body| && IsDigit(body[k])
  {
    var n := Span(body, IsDigit);
    if n == 0 {
      assert IsDigit(body[1]);
    } else {
      assert IsDigit(body[0]);
    }
  }

  /** The longest `digits[.digits]` prefix of `body`, `None` when it has no digit. */
  function UnsignedPrefix(body: string): Option<real> {
    SpanIs(body, IsDigit);
    var n := Span(body, IsDigit);
    var rest := body[n..];
    var frac := if rest != [] && rest[0] == '.' then SpanIs(rest[1..], IsDigit); rest[1..][..Span(rest[1..], IsDigit)] else [];
    if n == 0 && frac == [] then None
    else Some(DecimalValue(body[..n], frac))
  }

  lemma DecimalPrefixOf(i: string, f: string)
    requires IsNumeral(i) && AllDigits(f)
    ensures DecimalPrefix(i + "." + f) == Some(DecimalValue(i, f))
  {
    var s := i + "." + f;
    assert s[0] == i[0];
    DecimalDigitStart(s);
    UnsignedPrefixOf(i, f);
  }

  /** Text that starts with a digit has no white space or sign to skip. */
  lemma DecimalDigitStart(s: string)
    requires s != [] && IsDigit(s[0])
    ensures DecimalPrefix(s) == UnsignedPrefix(s)
  {
    SpanAt(s, 0, IsSpace);
    assert TrimStart(s) == s;
  }

  lemma UnsignedPrefixOf(i: string, f: string)
    requires IsNumeral(i) && AllDigits(f)
    ensures UnsignedPrefix(i + "." + f) == Some(DecimalValue(i, f))
  {
    var s := i + "." + f;
    assert forall k :: 0 <= k < |i| ==> s[k] == i[k];
    assert s[|i|] == '.';
    SpanAt(s, |i|, IsDigit);
    assert s[..|i|] == i;
    assert s[|i|..][1..] == f;
    SpanAt(f, |f|, IsDigit);
    assert f[..|f|] == f;
  }

  /** `parseAmount`: 0 for "" and for text with no parseable number. */
  function ParseAmount(s: string): (r: real)
    ensures (forall k :: 0 <= k < |s| ==> !IsDigit(s[k])) ==> r == 0.0
  {
    if s == [] then 0.0
    else
      NoDigitNoAmount(s);
      match DecimalPrefix(NormalizeAmount(CleanAmount(s)))
      case None => 0.0
      case Some(v) => v
  }

  lemma NoDigitNoAmount(s: string)
    ensures (forall k :: 0 <= k < |s| ==> !IsDigit(s[k])) ==> DecimalPrefix(NormalizeAmount(CleanAmount(s))).None?
  {
    if forall k :: 0 <= k < |s| ==> !IsDigit(s[k]) {
      var c := CleanAmount(s);
      assert forall ch :: ch in c ==> !IsDigit(ch);
      var n := NormalizeAmount(c);
      forall k | 0 <= k < |n| ensures !IsDigit(n[k]) {
        assert n[k] in n;
      }
      DecimalPrefixHasDigit(n);
    }
  }

  /** Cleaning first changes nothing: currency symbols and spaces never matter. */
  lemma ParseAmountOfCleaned(s: string)
    ensures ParseAmount(CleanAmount(s)) == ParseAmount(s)
  {
    KeepIdempotent(s, IsAmountChar);
  }

  lemma CleanPrefixed(pre: string, body: string)
    requires forall ch :: ch in pre ==> !IsAmountChar(ch)
    requires forall ch :: ch in body ==> IsAmountChar(ch)
    ensures CleanAmount(pre + body) == body
  {
    calc {
      Keep(pre + body, IsAmountChar);
      { KeepAppend(pre, body, IsAmountChar); }
      Keep(pre, IsAmountChar) + Keep(body, IsAmountChar);
      { KeepNone(pre, IsAmountChar); KeepAll(body, IsAmountChar); }
      [] + body;
      { assert [] + body == body; }
      body;
    }
  }

  /** Text with no comma is read as it stands. */
  lemma NormalizeNoComma(x: string)
    requires ',' !in x
    ensures NormalizeAmount(x) == x
  {
    RemoveCharAbsent(x, ',');
  }

  /** An amount written after a currency prefix such as "$" with a decimal point,
      as in "$4.50". */
  lemma CurrencyAmount(pre: string, i: string, f: string)
    requires forall ch :: ch in pre ==> !IsAmountChar(ch)
    requires IsNumeral(i) && AllDigits(f)
    ensures ParseAmount(pre + i + "." + f) == DecimalValue(i, f)
  {
    var body := i + "." + f;
    assert forall ch :: ch in body ==> IsAmountChar(ch) by {
      forall ch | ch in body ensures IsAmountChar(ch) {
        assert ch in i || ch == '.' || ch in f;
      }
    }
    assert pre + i + "." + f == pre + body;
    CleanPrefixed(pre, body);
    assert ',' !in body by {
      assert forall ch :: ch in body ==> ch in i || ch == '.' || ch in f;
      assert forall k :: 0 <= k < |i| ==> IsDigit(i[k]);
    }
    NormalizeNoComma(body);
    DecimalPrefixOf(i, f);
  }

  /** "1.234,56" and "1,234.56" are the same amount: whichever separator comes last
      is the decimal separator. */
  lemma AmountLocales(a: string, b: string, c: string)
    requires IsNumeral(a) && AllDigits(b) && AllDigits(c)
    ensures AllDigits(a + b)
    ensures ParseAmount(a + "." + b + "," + c) == DecimalValue(a + b, c)
    ensures ParseAmount(a + "," + b + "." + c) == DecimalValue(a + b, c)
  {
    assert AllDigits(a + b);
    DecimalPrefixOf(a + b, c);
    EuropeanAmount(a, b, c);
    AmericanAmount(a, b, c);
  }

  lemma CleanNumerals(a: string, b: string, c: string, sep1: char, sep2: char)
    requires AllDigits(a) && AllDigits(b) && AllDigits(c)
    requires IsAmountChar(sep1) && IsAmountChar(sep2)
    ensures CleanAmount(a + [sep1] + b + [sep2] + c) == a + [sep1] + b + [sep2] + c
  {
    var s := a + [sep1] + b + [sep2] + c;
    forall ch | ch in s ensures IsAmountChar(ch) {
      assert ch in a || ch == sep1 || ch in b || ch == sep2 || ch in c;
    }
    KeepAll(s, IsAmountChar);
  }

  lemma NoSeparator(s: string, ch: char)
    requires AllDigits(s) && !IsDigit(ch)
    ensures ch !in s
  {
  }

  /** In `a x b y c` with digit fields, the last `x` is at `|a|` and the last `y` at `|a| + 1 + |b|`. */
  lemma SeparatorPositions(a: string, b: string, c: string, x: char, y: char)
    requires AllDigits(a) && AllDigits(b) && AllDigits(c) && !IsDigit(x) && !IsDigit(y) && x != y
    ensures LastIndexOf(a + [x] + b + [y] + c, x) == |a|
    ensures LastIndexOf(a + [x] + b + [y] + c, y) == |a| + 1 + |b|
  {
    NoSeparator(b, x);
    NoSeparator(c, x);
    NoSeparator(c, y);
    var t := b + [y] + c;
    forall k | 0 <= k < |t| ensures t[k] != x {
      if k < |b| { assert t[k] == b[k]; }
      else if k > |b| { assert t[k] == c[k - |b| - 1]; }
    }
    Regroup(a, b, c, x, y);
    LastIndexOfSplit(a, t, x);
    LastIndexOfSplit(a + [x] + b, c, y);
  }

  lemma Regroup(a: string, b: string, c: string, x: char, y: char)
    ensures a + [x] + b + [y] + c == a + [x] + (b + [y] + c)
  {
  }

  lemma DropLast(a: string, x: char)
    requires x !in a
    ensures RemoveChar(a + [x], x) == a
  {
    RemoveCharAppend(a, [x], x);
    RemoveCharAbsent(a, x);
    assert RemoveChar([x], x) == [];
  }

  /** Removing the only `x` of `a x b` joins `a` and `b`. */
  lemma DropOne(a: string, b: string, x: char)
    requires x !in a && x !in b
    ensures RemoveChar(a + [x] + b, x) == a + b
  {
    RemoveCharAppend(a + [x], b, x);
    DropLast(a, x);
    RemoveCharAbsent(b, x);
  }

  /** Removing the first separator of `a x b y c` joins `a` and `b`. */
  lemma DropSeparator(a: string, b: string, c: string, x: char, y: char)
    requires x != y && x !in a && x !in b && x !in c
    ensures RemoveChar(a + [x] + b + [y] + c, x) == a + b + [y] + c
  {
    var t := b + [y] + c;
    assert x !in t;
    Regroup(a, b, c, x, y);
    DropOne(a, t, x);
    assert a + t == a + b + [y] + c;
  }

  lemma EuropeanAmount(a: string, b: string, c: string)
    requires IsNumeral(a) && AllDigits(b) && AllDigits(c)
    ensures NormalizeAmount(CleanAmount(a + "." + b + "," + c)) == a + b + "." + c
  {
    var s := a + ['.'] + b + [','] + c;
    CleanNumerals(a, b, c, '.', ',');
    SeparatorPositions(a, b, c, '.', ',');
    NoSeparator(a, '.');
    NoSeparator(b, '.');
    NoSeparator(c, '.');
    NoSeparator(a + b, ',');
    calc {
      NormalizeAmount(s);
      ReplaceFirst(RemoveChar(s, '.'), ',', '.');
      { DropSeparator(a, b, c, '.', ','); }
      ReplaceFirst(a + b + [','] + c, ',', '.');
      { ReplaceFirstAt(a + b, c, ',', '.'); }
      a + b + ['.'] + c;
    }
  }

  lemma AmericanAmount(a: string, b: string, c: string)
    requires IsNumeral(a) && AllDigits(b) && AllDigits(c)
    ensures NormalizeAmount(CleanAmount(a + "," + b + "." + c)) == a + b + "." + c
  {
    var s := a + [','] + b + ['.'] + c;
    CleanNumerals(a, b, c, ',', '.');
    SeparatorPositions(a, b, c, ',', '.');
    NoSeparator(a, ',');
    NoSeparator(b, ',');
    NoSeparator(c, ',');
    calc {
      NormalizeAmount(s);
      RemoveChar(s, ',');
      { DropSeparator(a, b, c, ',', '.'); }
      a + b + ['.'] + c;
    }
  }
}
