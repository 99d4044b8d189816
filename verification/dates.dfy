/**
 * Calendar dates as Python's `datetime.date` treats them: the proleptic
 * Gregorian calendar with leap years, inclusive date ranges, month
 * arithmetic (`_first_day_months_ago`, the cash-flow month stepper) and the
 * ISO `YYYY-MM-DD` text form written by `date.isoformat()`.
 */
module Dates {
  import opened Decimals

  datatype Date = Date(year: int, month: int, day: int)

  predicate IsLeap(y: int) {
    y % 4 == 0 && (y % 100 != 0 || y % 400 == 0)
  }

  /** `calendar.monthrange(y, m)[1]`. */
  function DaysInMonth(y: int, m: int): (n: int)
    requires 1 <= m <= 12
    ensures 28 <= n <= 31
    ensures n == 29 <==> m == 2 && IsLeap(y)
    ensures n == 28 <==> m == 2 && !IsLeap(y)
    ensures n == 30 <==> m in {4, 6, 9, 11}
  {
    if m == 2 then (if IsLeap(y) then 29 else 28)
    else if m == 4 || m == 6 || m == 9 || m == 11 then 30
    else 31
  }

  /** A date Python can represent (the upper year bound 9999 is not modelled). */
  predicate Valid(d: Date) {
    1 <= d.year && 1 <= d.month <= 12 && 1 <= d.day <= DaysInMonth(d.year, d.month)
  }

  /** `a <= b` on dates. */
  predicate LessEq(a: Date, b: Date) {
    a.year < b.year || (a.year == b.year && (a.month < b.month || (a.month == b.month && a.day <= b.day)))
  }

  predicate Less(a: Date, b: Date) {
    LessEq(a, b) && a != b
  }

  /** `lo <= d <= hi`, the ORM's `date__gte=lo, date__lte=hi`. */
  predicate InRange(d: Date, lo: Date, hi: Date) {
    LessEq(lo, d) && LessEq(d, hi)
  }

  lemma LessEqTotal(a: Date, b: Date)
    ensures LessEq(a, b) || LessEq(b, a)
    ensures LessEq(a, b) && LessEq(b, a) ==> a == b
  {
  }

  /** Months counted from January of year 0: consecutive months differ by one. */
  function MonthNumber(d: Date): int {
    d.year * 12 + d.month - 1
  }

  /** `d.replace(day=1)`. */
  function FirstOfMonth(d: Date): (r: Date)
    requires Valid(d)
    ensures Valid(r) && r.day == 1 && MonthNumber(r) == MonthNumber(d)
    ensures LessEq(r, d)
  {
    Date(d.year, d.month, 1)
  }

  /** `d.replace(day=calendar.monthrange(d.year, d.month)[1])`. */
  function LastOfMonth(d: Date): (r: Date)
    requires Valid(d)
    ensures Valid(r) && MonthNumber(r) == MonthNumber(d)
    ensures LessEq(d, r)
    ensures forall x :: Valid(x) && MonthNumber(x) == MonthNumber(d) ==> LessEq(x, r)
  {
    Date(d.year, d.month, DaysInMonth(d.year, d.month))
  }

  /** `_first_day_months_ago(reference, months)`: day 1 of the month `months`
      months before the reference month, borrowing years as needed. Python
      rejects a year below 1, so the caller must stay inside the calendar. */
  method FirstDayMonthsAgo(reference: Date, months: nat) returns (r: Date)
    requires Valid(reference)
    requires MonthNumber(reference) - months >= 12
    ensures Valid(r) && r.day == 1
    ensures MonthNumber(r) == MonthNumber(reference) - months
  {
    var year := reference.year;
    var month := reference.month - months;
    while month <= 0
      invariant month <= 12
      invariant year * 12 + month - 1 == MonthNumber(reference) - months
      decreases -month
    {
      month := month + 12;
      year := year - 1;
    }
    r := Date(year, month, 1);
  }

  /** The cash-flow stepper's move to the next month: December rolls over to
      January of the next year; the day is kept. */
  function NextMonth(d: Date): (r: Date)
    requires Valid(d) && d.day == 1
    ensures Valid(r) && r.day == 1
    ensures MonthNumber(r) == MonthNumber(d) + 1
  {
    if d.month == 12 then Date(d.year + 1, 1, d.day) else Date(d.year, d.month + 1, d.day)
  }

  // ---------------------------------------------------------------------
  // ISO text form
  // ---------------------------------------------------------------------

  /** Two decimal digits with a leading zero. */
  function Pad2(n: nat): (s: string)
    requires n < 100
    ensures |s| == 2 && AllDigits(s)
  {
    [DigitChar(n / 10), DigitChar(n % 10)]
  }

  /** A year with at least four digits (`%04d`). */
  function Pad4(n: nat): (s: string)
    ensures |s| >= 4 && AllDigits(s)
  {
    if n < 10000 then [DigitChar(n / 1000), DigitChar(n / 100 % 10)] + Pad2(n % 100)
    else Pad4(n / 10) + [DigitChar(n % 10)]
  }

  /** `date.isoformat()`. */
  function IsoFormat(d: Date): string
    requires Valid(d)
  {
    Pad4(d.year) + "-" + Pad2(d.month) + "-" + Pad2(d.day)
  }

  /** The ISO form starts and ends with a digit. */
  lemma IsoFormatEdges(d: Date)
    requires Valid(d)
    ensures var s := IsoFormat(d); |s| >= 10 && IsDigit(s[0]) && IsDigit(s[|s| - 1])
  {
    var y := Pad4(d.year);
    var s := IsoFormat(d);
    assert s[0] == y[0];
    assert s[|s| - 1] == Pad2(d.day)[1];
  }
}
