/** Display helpers of the dashboard: how long ago something happened, month names,
    the privacy masks that stand in for amounts, and the `+`/`-` prefix of signed
    amounts. The locale formatting of numbers is not part of this model; where a
    helper wraps it, the formatted text is a parameter. */
module Formatters {
  import opened Wrappers
  import opened Text

  const MS_PER_MINUTE := 1000 * 60
  const MS_PER_HOUR := 1000 * 60 * 60
  const MS_PER_DAY := 1000 * 60 * 60 * 24

  datatype TimeUnit = Minute | Hour | Day | Week | Month | Year

  /** A relative date: "just now", or a count of some unit ago. */
  datatype Relative = JustNow | Ago(count: int, unit: TimeUnit)

  /** The band a difference of `diffMs` milliseconds (now minus the date) falls in,
      with the count `Math.floor` gives for it. A date in the future reads "just
      now". */
  function RelativeOf(diffMs: int): (r: Relative)
    ensures r == JustNow <==> diffMs < MS_PER_MINUTE
    ensures r.Ago? ==> r.count >= 1
    ensures r.Ago? && r.unit == Minute ==> r.count < 60 && r.count == diffMs / MS_PER_MINUTE
    ensures r.Ago? && r.unit == Hour ==> r.count < 24 && r.count == diffMs / MS_PER_HOUR
    ensures r.Ago? && r.unit == Day ==> r.count < 7 && r.count == diffMs / MS_PER_DAY
    ensures r.Ago? && r.unit == Week ==> r.count <= 4 && r.count == (diffMs / MS_PER_DAY) / 7
    ensures r.Ago? && r.unit == Month ==> r.count <= 12 && r.count == (diffMs / MS_PER_DAY) / 30
    ensures r.Ago? && r.unit == Year ==> r.count == (diffMs / MS_PER_DAY) / 365
  {
    var diffDays := diffMs / MS_PER_DAY;
    var diffHours := diffMs / MS_PER_HOUR;
    var diffMinutes := diffMs / MS_PER_MINUTE;
    if diffMinutes < 1 then JustNow
    else if diffMinutes < 60 then Ago(diffMinutes, Minute)
    else if diffHours < 24 then Ago(diffHours, Hour)
    else if diffDays < 7 then Ago(diffDays, Day)
    else if diffDays < 30 then Ago(diffDays / 7, Week)
    else if diffDays < 365 then Ago(diffDays / 30, Month)
    else Ago(diffDays / 365, Year)
  }

  /** The bands in increasing order. */
  function Rank(r: Relative): nat {
    match r
    case JustNow => 0
    case Ago(_, Minute) => 1
    case Ago(_, Hour) => 2
    case Ago(_, Day) => 3
    case Ago(_, Week) => 4
    case Ago(_, Month) => 5
    case Ago(_, Year) => 6
  }

  /** The band of a difference, read off thresholds in milliseconds. */
  lemma BandThresholds(diffMs: int)
    ensures Rank(RelativeOf(diffMs)) == 0 <==> diffMs < MS_PER_MINUTE
    ensures Rank(RelativeOf(diffMs)) <= 1 <==> diffMs < MS_PER_HOUR
    ensures Rank(RelativeOf(diffMs)) <= 2 <==> diffMs < MS_PER_DAY
    ensures Rank(RelativeOf(diffMs)) <= 3 <==> diffMs < 7 * MS_PER_DAY
    ensures Rank(RelativeOf(diffMs)) <= 4 <==> diffMs < 30 * MS_PER_DAY
    ensures Rank(RelativeOf(diffMs)) <= 5 <==> diffMs < 365 * MS_PER_DAY
  {
    FloorBelow(diffMs, MS_PER_MINUTE, 1);
    FloorBelow(diffMs, MS_PER_MINUTE, 60);
    FloorBelow(diffMs, MS_PER_HOUR, 24);
    FloorBelow(diffMs, MS_PER_DAY, 7);
    FloorBelow(diffMs, MS_PER_DAY, 30);
    FloorBelow(diffMs, MS_PER_DAY, 365);
  }

  /** `Math.floor(x / k) < n` exactly when `x < n * k`. */
  lemma FloorBelow(x: int, k: int, n: int)
    requires k > 0
    ensures x / k < n <==> x < n * k
  {
    var q := x / k;
    assert x == q * k + x % k && 0 <= x % k < k;
    if q < n {
      MulMono(q + 1, n, k);
      assert (q + 1) * k == q * k + k;
    } else {
      MulMono(n, q, k);
    }
  }

  lemma MulMono(a: int, b: int, k: int)
    requires a <= b && 0 < k
    ensures a * k <= b * k
  {
    assert b * k - a * k == (b - a) * k;
  }

  /** An older date never reads as a smaller band. */
  lemma RelativeMonotone(d1: int, d2: int)
    requires d1 <= d2
    ensures Rank(RelativeOf(d1)) <= Rank(RelativeOf(d2))
  {
    BandThresholds(d1);
    BandThresholds(d2);
  }

  /** Seven whole days read as one week, not as seven days. */
  lemma SevenDaysIsOneWeek(diffMs: int)
    requires 7 * MS_PER_DAY <= diffMs < 8 * MS_PER_DAY
    ensures RelativeOf(diffMs) == Ago(1, Week)
  {
    FloorBelow(diffMs, MS_PER_DAY, 8);
    FloorBelow(diffMs, MS_PER_DAY, 7);
  }

  function UnitName(u: TimeUnit): string {
    match u
    case Minute => "minute"
    case Hour => "hour"
    case Day => "day"
    case Week => "week"
    case Month => "month"
    case Year => "year"
  }

  /** The text of a relative date; the unit takes an `s` unless the count is 1. */
  function Render(r: Relative): string
    requires r.Ago? ==> r.count >= 1
  {
    match r
    case JustNow => "just now"
    case Ago(n, u) => NatToString(n) + UnitPhrase(n, u)
  }

  /** What follows the count: the unit, plural unless the count is 1, then "ago". */
  function UnitPhrase(n: int, u: TimeUnit): string {
    " " + UnitName(u) + (if n == 1 then "" else "s") + " ago"
  }

  /** `formatRelativeDate(date)` with the clock reading `nowMs` passed in. */
  function FormatRelativeDate(nowMs: int, dateMs: int): (r: string)
    ensures nowMs - dateMs < MS_PER_MINUTE ==> r == "just now"
  {
    Render(RelativeOf(nowMs - dateMs))
  }

  /** The count in the text reads back as the count. */
  lemma RenderReadsBack(n: int, u: TimeUnit)
    requires n >= 1
    ensures ParseIntPrefix(Render(Ago(n, u))) == Some(n)
  {
    var rest := UnitPhrase(n, u);
    assert rest[0] == ' ';
    ParseNumeralThenText(n, rest);
  }

  lemma ParseNumeralThenText(n: nat, rest: string)
    requires rest != [] && !IsDigit(rest[0])
    ensures ParseIntPrefix(NatToString(n) + rest) == Some(n)
  {
    var d := NatToString(n);
    var s := d + rest;
    assert s[..|d|] == d;
    assert s[|d|] == rest[0];
    ParseDigitsThenStop(s, |d|);
  }

  /** The unit is plural exactly when the count is not 1 (no unit name itself ends
      in `s`). */
  lemma RenderPlural(n: int, u: TimeUnit)
    requires n >= 1
    ensures EndsWith(Render(Ago(n, u)), "s ago") <==> n != 1
  {
    EndsWithAfter(NatToString(n), UnitPhrase(n, u), "s ago");
    PhrasePlural(n, u);
  }

  lemma PhrasePlural(n: int, u: TimeUnit)
    ensures EndsWith(UnitPhrase(n, u), "s ago") <==> n != 1
  {
    var name := UnitName(u);
    var ph := UnitPhrase(n, u);
    EndsWithMeans(ph, "s ago");
    if n == 1 {
      assert ph == " " + name + " ago";
      assert ph[|ph| - 5] == name[|name| - 1];
    } else {
      assert ph == (" " + name) + "s ago";
      assert ph[|ph| - 5..] == "s ago";
    }
  }

  /** Text in front never changes whether a longer tail ends with a suffix. */
  lemma EndsWithAfter(a: string, b: string, x: string)
    requires |x| <= |b|
    ensures EndsWith(a + b, x) <==> EndsWith(b, x)
  {
    EndsWithMeans(a + b, x);
    EndsWithMeans(b, x);
    assert (a + b)[|a + b| - |x|..] == b[|b| - |x|..];
  }

  /** `parseInt` reads the leading digits and stops at the first other character. */
  lemma ParseDigitsThenStop(s: string, k: nat)
    requires 1 <= k < |s| && AllDigits(s[..k]) && !IsDigit(s[k])
    ensures ParseIntPrefix(s) == Some(DigitsValue(s[..k]) as int)
  {
    assert IsDigit(s[..k][0]);
    assert TrimStart(s) == s;
    SpanAt(s, k, IsDigit);
  }

  const MONTH_NAMES: seq<string> := [
    "January", "February", "March", "April", "May", "June",
    "July", "August", "September", "October", "November", "December"]

  /** `getMonthName(month)`, long form: `names[month] || ""`. */
  function MonthName(month: int): (r: string)
    ensures 0 <= month < 12 ==> r == MONTH_NAMES[month]
    ensures !(0 <= month < 12) ==> r == ""
  {
    if 0 <= month < |MONTH_NAMES| then MONTH_NAMES[month] else ""
  }

  /** Every valid month has a name of its own, and only valid months have one. */
  lemma MonthNamesDistinct(a: int, b: int)
    ensures MonthName(a) != "" <==> 0 <= a < 12
    ensures MonthName(a) != "" && a != b ==> MonthName(a) != MonthName(b)
  {
    if 0 <= a < 12 && 0 <= b < 12 && a != b {
      MonthNamesPairwise();
    }
  }

  /** The twelve names differ pairwise. */
  lemma MonthNamesPairwise()
    ensures forall i, j :: 0 <= i < j < 12 ==> MONTH_NAMES[i] != MONTH_NAMES[j]
  {
    forall i, j | 0 <= i < j < 12 ensures MONTH_NAMES[i] != MONTH_NAMES[j] {
      var x, y := MONTH_NAMES[i], MONTH_NAMES[j];
      assert |x| != |y| || x[0] != y[0] || x[1] != y[1] || x[2] != y[2];
    }
  }

  const MASK := "••••••"

  /** `maskCurrency(amount, showSign)`: only the sign can show through, and only
      when asked for. */
  function MaskCurrency(amount: real, showSign: bool): (r: string)
    ensures !showSign || amount >= 0.0 ==> r == MASK
    ensures showSign && amount < 0.0 ==> r == "-" + MASK
  {
    if !showSign then MASK else if amount >= 0.0 then MASK else "-" + MASK
  }

  /** No amount can be read back from its mask: two amounts of the same sign get
      the same text, and the text holds no digit. */
  lemma MaskHidesAmount(a: real, b: real, showSign: bool)
    requires (a >= 0.0) == (b >= 0.0)
    ensures MaskCurrency(a, showSign) == MaskCurrency(b, showSign)
    ensures forall k :: 0 <= k < |MaskCurrency(a, showSign)| ==> !IsDigit(MaskCurrency(a, showSign)[k])
  {
  }

  /** `maskPercent()`. */
  function MaskPercent(): (r: string)
    ensures r == "••%"
  {
    "••%"
  }

  function Abs(x: real): real { if x >= 0.0 then x else -x }

  /** `formatCurrencyWithSign` and `formatPercentWithSign`: the formatting of the
      magnitude, after `+` for zero and above and `-` below; `format` stands for
      the locale formatting of the magnitude. */
  function WithSign(value: real, format: real -> string): (r: string)
    ensures value >= 0.0 ==> r == "+" + format(value)
    ensures value < 0.0 ==> r == "-" + format(-value)
  {
    var formatted := format(Abs(value));
    if value >= 0.0 then "+" + formatted else "-" + formatted
  }

  /** A value and its opposite differ only in the sign character. */
  lemma WithSignOpposite(value: real, format: real -> string)
    requires value != 0.0
    ensures WithSign(value, format)[1..] == WithSign(-value, format)[1..]
    ensures WithSign(value, format)[0] != WithSign(-value, format)[0]
  {
  }
}
