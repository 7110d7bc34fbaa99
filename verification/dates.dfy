/**
 Calendar dates as the program keeps them: strings, compared as strings, and turned into
 day numbers only to be subtracted. RFC 3339 section 5.6 defines full-date; its section 5.1
 remarks that such strings sort chronologically, which LessAgrees proves.
 */
module Dates {
  import opened Wrappers

  // ----- Python's order on strings -----

  /** a < b, character by character; a proper prefix comes first. */
  predicate Less(a: string, b: string) {
    b != "" && (a == "" || a[0] < b[0] || (a[0] == b[0] && Less(a[1..], b[1..])))
  }

  predicate AtMost(a: string, b: string) {
    !Less(b, a)
  }

  function Later(a: string, b: string): string {
    if Less(a, b) then b else a
  }

  lemma {:induction false} LessTransitive(a: string, b: string, c: string)
    requires Less(a, b) && Less(b, c)
    ensures Less(a, c)
  {
    if a != "" && a[0] == b[0] == c[0] {
      LessTransitive(a[1..], b[1..], c[1..]);
    }
  }

  lemma {:induction false} LessTrichotomy(a: string, b: string)
    ensures Less(a, b) || a == b || Less(b, a)
    ensures !(Less(a, b) && Less(b, a))
    ensures a == b ==> !Less(a, b)
  {
    if a != "" && b != "" && a[0] == b[0] {
      LessTrichotomy(a[1..], b[1..]);
      assert a == [a[0]] + a[1..] && b == [b[0]] + b[1..];
    }
  }

  lemma AtMostTransitive(a: string, b: string, c: string)
    requires AtMost(a, b) && AtMost(b, c)
    ensures AtMost(a, c)
  {
    if Less(c, a) {
      LessTrichotomy(a, b);
      if Less(a, b) {
        LessTransitive(c, a, b);
      }
    }
  }

  /** A string comes before every proper extension of it, and strings compare as what follows their common start. */
  lemma {:induction false} LessAfterPrefix(p: string, a: string, b: string)
    ensures Less(p + a, p + b) <==> Less(a, b)
    ensures Less("", b) <==> b != ""
    ensures a != "" && b != "" && a[0] != b[0] ==> (Less(a, b) <==> a[0] < b[0])
  {
    if p == "" {
      assert p + a == a && p + b == b;
    } else {
      LessAfterPrefix(p[1..], a, b);
      assert (p + a)[1..] == p[1..] + a && (p + b)[1..] == p[1..] + b;
    }
  }

  /** The order is total: what LessTransitive and LessTrichotomy say, for all strings at once. */
  lemma LessTotal()
    ensures forall a, b :: Less(a, b) || a == b || Less(b, a)
    ensures forall a, b :: Less(a, b) ==> !Less(b, a) && a != b
    ensures forall a, b, c :: Less(a, b) && Less(b, c) ==> Less(a, c)
  {
    forall a, b {
      LessTrichotomy(a, b);
    }
    forall a, b, c | Less(a, b) && Less(b, c) {
      LessTransitive(a, b, c);
    }
  }

  /** Strings that first differ at position k compare as their characters there. */
  lemma {:induction false} LessAtFirstDifference(a: string, b: string, k: nat)
    requires k < |a| && k < |b| && a[..k] == b[..k] && a[k] != b[k]
    ensures Less(a, b) <==> a[k] < b[k]
  {
    if k > 0 {
      assert a[0] == a[..k][0] == b[..k][0] == b[0];
      assert a[1..][..k - 1] == a[..k][1..] && b[1..][..k - 1] == b[..k][1..];
      LessAtFirstDifference(a[1..], b[1..], k - 1);
    }
  }

  // ----- The proleptic Gregorian calendar -----

  datatype FullDate = FullDate(year: int, month: int, day: int) {
    /** The dates Python's datetime.date can hold. */
    predicate Valid() {
      1 <= year <= 9999 && 1 <= month <= 12 && 1 <= day <= DaysInMonth(year, month)
    }
  }

  predicate Leap(y: int) {
    y % 4 == 0 && (y % 100 != 0 || y % 400 == 0)
  }

  function DaysInMonth(y: int, m: int): int {
    if m == 2 then (if Leap(y) then 29 else 28)
    else if m == 4 || m == 6 || m == 9 || m == 11 then 30
    else 31
  }

  function YearLength(y: int): int {
    if Leap(y) then 366 else 365
  }

  function DaysBeforeYear(y: int): int
    requires y >= 1
    decreases y
  {
    if y == 1 then 0 else DaysBeforeYear(y - 1) + YearLength(y - 1)
  }

  function DaysBeforeMonth(y: int, m: int): int
    requires m >= 1
    decreases m
  {
    if m == 1 then 0 else DaysBeforeMonth(y, m - 1) + DaysInMonth(y, m - 1)
  }

  /** The day number of a date; 0001-01-01 is day 1. */
  function DayNumber(d: FullDate): int
    requires d.year >= 1 && d.month >= 1
  {
    DaysBeforeYear(d.year) + DaysBeforeMonth(d.year, d.month) + d.day
  }

  predicate DateLess(a: FullDate, b: FullDate) {
    a.year < b.year || (a.year == b.year && (a.month < b.month || (a.month == b.month && a.day < b.day)))
  }

  lemma MonthsFillYear(y: int)
    ensures DaysBeforeMonth(y, 13) == YearLength(y)
  {
    assert DaysBeforeMonth(y, 3) == 31 + DaysInMonth(y, 2);
    assert DaysBeforeMonth(y, 5) == DaysBeforeMonth(y, 3) + 61;
    assert DaysBeforeMonth(y, 7) == DaysBeforeMonth(y, 5) + 61;
    assert DaysBeforeMonth(y, 9) == DaysBeforeMonth(y, 7) + 62;
    assert DaysBeforeMonth(y, 11) == DaysBeforeMonth(y, 9) + 61;
    assert DaysBeforeMonth(y, 13) == DaysBeforeMonth(y, 11) + 61;
  }

  lemma {:induction false} LaterMonth(y: int, m: int, n: int)
    requires 1 <= m < n
    ensures DaysBeforeMonth(y, m) + DaysInMonth(y, m) <= DaysBeforeMonth(y, n)
    decreases n
  {
    if m < n - 1 {
      LaterMonth(y, m, n - 1);
    }
  }

  lemma {:induction false} LaterYear(y: int, z: int)
    requires 1 <= y < z
    ensures DaysBeforeYear(y) + 365 * (z - y) <= DaysBeforeYear(z)
    ensures DaysBeforeYear(y + 1) <= DaysBeforeYear(z)
    decreases z
  {
    if y < z - 1 {
      LaterYear(y, z - 1);
    }
  }

  lemma DayInYear(d: FullDate)
    requires d.Valid()
    ensures DaysBeforeYear(d.year) < DayNumber(d) <= DaysBeforeYear(d.year + 1)
  {
    MonthsFillYear(d.year);
    LaterMonth(d.year, d.month, 13);
    if d.month > 1 {
      LaterMonth(d.year, 1, d.month);
    }
  }

  /** Chronological order of dates is the order of their day numbers. */
  lemma DayNumberMonotone(a: FullDate, b: FullDate)
    requires a.Valid() && b.Valid()
    ensures DateLess(a, b) <==> DayNumber(a) < DayNumber(b)
    ensures a == b <==> DayNumber(a) == DayNumber(b)
  {
    if DateLess(a, b) {
      DayNumberStrict(a, b);
    } else if DateLess(b, a) {
      DayNumberStrict(b, a);
    }
  }

  lemma DayNumberStrict(a: FullDate, b: FullDate)
    requires a.Valid() && b.Valid() && DateLess(a, b)
    ensures DayNumber(a) < DayNumber(b)
  {
    if a.year < b.year {
      DayInYear(a);
      DayInYear(b);
      LaterYear(a.year, b.year);
    } else if a.month < b.month {
      LaterMonth(a.year, a.month, b.month);
    }
  }

  /** Days before each month of a year that is not a leap year. */
  const BEFORE_MONTH: seq<int> := [0, 31, 59, 90, 120, 151, 181, 212, 243, 273, 304, 334]

  /** The day number written out, by the Gregorian rule of 97 leap days in 400 years. */
  lemma DayNumberFormula(d: FullDate)
    requires d.Valid()
    ensures DayNumber(d) ==
      365 * (d.year - 1) + (d.year - 1) / 4 - (d.year - 1) / 100 + (d.year - 1) / 400 + BEFORE_MONTH[d.month - 1]
      + (if d.month > 2 && d.year % 4 == 0 && (d.year % 100 != 0 || d.year % 400 == 0) then 1 else 0) + d.day
  {
    YearsFormula(d.year);
    MonthsFormula(d.year, d.month);
  }

  lemma {:induction false} YearsFormula(y: int)
    requires y >= 1
    ensures DaysBeforeYear(y) == 365 * (y - 1) + LeapDays(y - 1)
    decreases y
  {
    if y > 1 {
      YearsFormula(y - 1);
      OneMoreYear(y - 1);
    }
  }

  /** The leap days of the first n years. */
  function LeapDays(n: int): int {
    n / 4 - n / 100 + n / 400
  }

  lemma OneMoreYear(n: int)
    ensures LeapDays(n) == LeapDays(n - 1) + if Leap(n) then 1 else 0
  {
    Fourth(n);
    Hundredth(n);
    FourHundredth(n);
    LeapMultiples(n);
  }

  lemma Fourth(n: int)
    ensures n / 4 == (n - 1) / 4 + if n % 4 == 0 then 1 else 0
  {
  }

  lemma Hundredth(n: int)
    ensures n / 100 == (n - 1) / 100 + if n % 100 == 0 then 1 else 0
  {
  }

  lemma FourHundredth(n: int)
    ensures n / 400 == (n - 1) / 400 + if n % 400 == 0 then 1 else 0
  {
  }

  lemma LeapMultiples(n: int)
    ensures n % 400 == 0 ==> n % 100 == 0
    ensures n % 100 == 0 ==> n % 4 == 0
  {
  }

  lemma {:induction false} MonthsFormula(y: int, m: int)
    requires 1 <= m <= 12
    ensures DaysBeforeMonth(y, m) ==
      BEFORE_MONTH[m - 1] + if m > 2 && y % 4 == 0 && (y % 100 != 0 || y % 400 == 0) then 1 else 0
    decreases m
  {
    if m > 1 {
      MonthsFormula(y, m - 1);
    }
  }

  /** The next day, or None past 9999-12-31 (Python raises OverflowError there). */
  function NextDay(d: FullDate): Option<FullDate>
    requires d.Valid()
  {
    if d.day < DaysInMonth(d.year, d.month) then Some(d.(day := d.day + 1))
    else if d.month < 12 then Some(FullDate(d.year, d.month + 1, 1))
    else if d.year < 9999 then Some(FullDate(d.year + 1, 1, 1))
    else None
  }

  /** d + timedelta(days=n), or None when that date does not exist. */
  function PlusDays(d: FullDate, n: nat): Option<FullDate>
    requires d.Valid()
    ensures PlusDays(d, n).Some? ==> PlusDays(d, n).value.Valid()
    decreases n, d
  {
    if n == 0 then Some(d)
    else
      var next := NextDay(d);
      if next == None then None else PlusDays(next.value, n - 1)
  }

  const LAST_DAY := FullDate(9999, 12, 31)

  lemma NextDayNumber(d: FullDate)
    requires d.Valid()
    ensures NextDay(d).Some? ==> NextDay(d).value.Valid() && DayNumber(NextDay(d).value) == DayNumber(d) + 1
    ensures NextDay(d) == None <==> d == LAST_DAY
  {
    if d.day == DaysInMonth(d.year, d.month) && d.month == 12 {
      MonthsFillYear(d.year);
      assert DaysBeforeMonth(d.year, 13) == DaysBeforeMonth(d.year, 12) + 31;
    }
  }

  /** PlusDays adds that many days, and fails exactly when the sum is past the last date. */
  lemma {:induction false} PlusDaysNumber(d: FullDate, n: nat)
    requires d.Valid()
    ensures PlusDays(d, n).Some? <==> DayNumber(d) + n <= DayNumber(LAST_DAY)
    ensures PlusDays(d, n).Some? ==> DayNumber(PlusDays(d, n).value) == DayNumber(d) + n
    decreases n
  {
    DayNumberMonotone(d, LAST_DAY);
    if n > 0 {
      NextDayNumber(d);
      if NextDay(d).Some? {
        PlusDaysNumber(NextDay(d).value, n - 1);
      }
    }
  }

  // ----- full-date strings -----

  predicate IsDigit(c: char) {
    '0' <= c <= '9'
  }

  function DigitValue(c: char): int
    requires IsDigit(c)
    ensures 0 <= DigitValue(c) <= 9
  {
    c as int - '0' as int
  }

  predicate DateShaped(s: string) {
    && |s| == 10 && s[4] == '-' && s[7] == '-'
    && IsDigit(s[0]) && IsDigit(s[1]) && IsDigit(s[2]) && IsDigit(s[3])
    && IsDigit(s[5]) && IsDigit(s[6]) && IsDigit(s[8]) && IsDigit(s[9])
  }

  function Fields(s: string): FullDate
    requires DateShaped(s)
  {
    FullDate(1000 * DigitValue(s[0]) + 100 * DigitValue(s[1]) + 10 * DigitValue(s[2]) + DigitValue(s[3]),
             10 * DigitValue(s[5]) + DigitValue(s[6]),
             10 * DigitValue(s[8]) + DigitValue(s[9]))
  }

  /** date.fromisoformat on a full-date; None where it raises ValueError. */
  function Parse(s: string): (d: Option<FullDate>)
    ensures d.Some? ==> d.value.Valid()
  {
    if DateShaped(s) && Fields(s).Valid() then Some(Fields(s)) else None
  }

  function DigitChar(n: int): char
    requires 0 <= n <= 9
    ensures IsDigit(DigitChar(n)) && DigitValue(DigitChar(n)) == n
  {
    ('0' as int + n) as char
  }

  /** date.isoformat. */
  function Format(d: FullDate): string
    requires d.Valid()
  {
    [DigitChar(d.year / 1000), DigitChar(d.year / 100 % 10), DigitChar(d.year / 10 % 10), DigitChar(d.year % 10), '-',
     DigitChar(d.month / 10), DigitChar(d.month % 10), '-', DigitChar(d.day / 10), DigitChar(d.day % 10)]
  }

  lemma Decimal(n: int)
    ensures n == 10 * (n / 10) + n % 10
  {
  }

  lemma ParseFormat(d: FullDate)
    requires d.Valid()
    ensures Parse(Format(d)) == Some(d)
  {
    Decimal(d.year);
    Decimal(d.year / 10);
    Decimal(d.year / 100);
    assert d.year / 10 / 10 == d.year / 100 && d.year / 100 / 10 == d.year / 1000;
    Decimal(d.month);
    Decimal(d.day);
    assert DateShaped(Format(d));
    assert Fields(Format(d)) == d;
  }

  /** A string that is read as a date is that date in isoformat, so nothing else is read as it. */
  lemma FormatParse(s: string)
    requires Parse(s).Some?
    ensures Format(Parse(s).value) == s
  {
    var d := Fields(s);
    DigitsOf(DigitValue(s[0]), DigitValue(s[1]), DigitValue(s[2]), DigitValue(s[3]));
    forall c: char | IsDigit(c) ensures DigitChar(DigitValue(c)) == c {
    }
    assert d.month / 10 == DigitValue(s[5]) && d.month % 10 == DigitValue(s[6]);
    assert d.day / 10 == DigitValue(s[8]) && d.day % 10 == DigitValue(s[9]);
    SameTen(Format(d), s);
  }

  lemma DigitsOf(a: int, b: int, c: int, d: int)
    requires 0 <= a <= 9 && 0 <= b <= 9 && 0 <= c <= 9 && 0 <= d <= 9
    ensures var n := 1000 * a + 100 * b + 10 * c + d;
      n / 1000 == a && n / 100 % 10 == b && n / 10 % 10 == c && n % 10 == d
  {
    LastDigit(100 * a + 10 * b + c, d);
    LastDigit(10 * a + b, c);
    LastDigit(a, b);
    Tens(1000 * a + 100 * b + 10 * c + d);
  }

  lemma LastDigit(tens: int, d: int)
    requires 0 <= d <= 9
    ensures (10 * tens + d) / 10 == tens && (10 * tens + d) % 10 == d
  {
  }

  lemma Tens(n: int)
    ensures n / 10 / 10 == n / 100 && n / 100 / 10 == n / 1000
  {
  }

  lemma SameTen(a: string, b: string)
    requires |a| == |b| == 10 && a[0] == b[0] && a[1] == b[1] && a[2] == b[2] && a[3] == b[3] && a[4] == b[4]
    requires a[5] == b[5] && a[6] == b[6] && a[7] == b[7] && a[8] == b[8] && a[9] == b[9]
    ensures a == b
  {
  }

  /** Two well-formed full-dates compare as strings exactly as their day numbers compare. */
  lemma LessAgrees(a: string, b: string)
    requires Parse(a).Some? && Parse(b).Some?
    ensures Less(a, b) <==> DayNumber(Parse(a).value) < DayNumber(Parse(b).value)
    ensures a == b <==> DayNumber(Parse(a).value) == DayNumber(Parse(b).value)
  {
    DayNumberMonotone(Fields(a), Fields(b));
    if a == b {
      LessTrichotomy(a, b);
    } else {
      var k := FirstDifference(a, b);
      LessAtFirstDifference(a, b, k);
      FieldsAtDifference(a, b, k);
    }
  }

  function FirstDifference(a: string, b: string): (k: nat)
    requires |a| == |b| && a != b
    ensures k < |a| && a[..k] == b[..k] && a[k] != b[k]
  {
    if a[0] != b[0] then 0 else
      assert a == [a[0]] + a[1..] && b == [b[0]] + b[1..];
      var k := FirstDifference(a[1..], b[1..]);
      assert a[..k + 1] == [a[0]] + a[1..][..k] && b[..k + 1] == [b[0]] + b[1..][..k];
      k + 1
  }

  lemma FieldsAtDifference(a: string, b: string, k: nat)
    requires DateShaped(a) && DateShaped(b) && k < 10 && a[..k] == b[..k] && a[k] != b[k]
    ensures DateLess(Fields(a), Fields(b)) <==> a[k] < b[k]
    ensures Fields(a) != Fields(b)
  {
    assert forall i :: 0 <= i < k ==> a[i] == a[..k][i] == b[..k][i] == b[i];
    assert k != 4 && k != 7;
  }

  /** Days between two full-dates, None when either is not one. */
  function DaysBetween(start: string, end: string): Option<int> {
    if Parse(start).Some? && Parse(end).Some?
    then Some(DayNumber(Parse(end).value) - DayNumber(Parse(start).value))
    else None
  }
}
