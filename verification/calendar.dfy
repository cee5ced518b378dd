/** The proleptic Gregorian calendar that ECMAScript's `Date` uses, and the
    calendar-date text `YYYY-MM-DD` of `Date.prototype.toISOString`.
    Days are numbered from 1970-01-01, which is day 0. */
module Calendar {
  import opened Text
  import opened Wrappers

  predicate IsLeapYear(y: int) {
    y % 4 == 0 && (y % 100 != 0 || y % 400 == 0)
  }

  function DaysInYear(y: int): int {
    if IsLeapYear(y) then 366 else 365
  }

  function DaysInMonth(y: int, m: int): int
    requires 1 <= m <= 12
  {
    if m == 2 then (if IsLeapYear(y) then 29 else 28)
    else if m == 4 || m == 6 || m == 9 || m == 11 then 30
    else 31
  }

  /** Days of year `y` before the first of month `m`. */
  function MonthStart(y: int, m: int): int
    requires 1 <= m <= 12
  {
    [0, 31, 59, 90, 120, 151, 181, 212, 243, 273, 304, 334][m - 1]
    + (if m > 2 && IsLeapYear(y) then 1 else 0)
  }

  /** The months tile the year: each starts where the previous one ends
      and December ends where the year does. */
  lemma MonthsTileYear(y: int, m: int)
    requires 1 <= m <= 12
    ensures m < 12 ==> MonthStart(y, m + 1) == MonthStart(y, m) + DaysInMonth(y, m)
    ensures m == 12 ==> MonthStart(y, m) + DaysInMonth(y, m) == DaysInYear(y)
  {
  }

  /** Day number of January 1 of year `y`. */
  function YearStart(y: int): int
    decreases if y < 1970 then 1970 - y else y - 1970
  {
    if y == 1970 then 0
    else if y > 1970 then YearStart(y - 1) + DaysInYear(y - 1)
    else YearStart(y + 1) - DaysInYear(y)
  }

  lemma YearStartStep(y: int)
    ensures YearStart(y + 1) == YearStart(y) + DaysInYear(y)
  {
  }

  lemma {:induction false} YearStartMonotone(y: int, y': int)
    requires y <= y'
    ensures YearStart(y) + (y' - y) * 365 <= YearStart(y')
    decreases y' - y
  {
    if y < y' {
      YearStartMonotone(y, y' - 1);
      YearStartStep(y' - 1);
    }
  }

  datatype Date = Date(year: int, month: int, day: int)

  predicate ValidDate(d: Date) {
    1 <= d.month <= 12 && 1 <= d.day <= DaysInMonth(d.year, d.month)
  }

  /** Day number of a calendar date. */
  function DayNumber(d: Date): int
    requires ValidDate(d)
  {
    YearStart(d.year) + MonthStart(d.year, d.month) + d.day - 1
  }

  /** The year holding day `rem` counted from January 1 of year `y`, with the
      day's offset in that year. */
  function FindYear(y: int, rem: int): (r: (int, int))
    ensures 0 <= r.1 < DaysInYear(r.0)
    ensures YearStart(r.0) + r.1 == YearStart(y) + rem
    decreases if rem < 0 then 400 - rem else rem
  {
    if rem < 0 then
      YearStartStep(y - 1);
      FindYear(y - 1, rem + DaysInYear(y - 1))
    else if rem < DaysInYear(y) then (y, rem)
    else
      YearStartStep(y);
      FindYear(y + 1, rem - DaysInYear(y))
  }

  /** The month of year `y` holding day-of-year `doy`, searching from `m`. */
  function FindMonth(y: int, doy: int, m: int): (r: int)
    requires 1 <= m <= 12 && MonthStart(y, m) <= doy < DaysInYear(y)
    ensures 1 <= r <= 12
    ensures MonthStart(y, r) <= doy < MonthStart(y, r) + DaysInMonth(y, r)
    decreases 12 - m
  {
    MonthsTileYear(y, m);
    if m == 12 || doy < MonthStart(y, m + 1) then m
    else FindMonth(y, doy, m + 1)
  }

  /** The calendar date of day number `n`. */
  function CivilFromDays(n: int): (d: Date)
    ensures ValidDate(d)
    ensures DayNumber(d) == n
  {
    var (y, doy) := FindYear(1970, n);
    var m := FindMonth(y, doy, 1);
    Date(y, m, doy - MonthStart(y, m) + 1)
  }

  lemma MonthStartMonotone(y: int, m: int, m': int)
    requires 1 <= m < m' <= 12
    ensures MonthStart(y, m) + DaysInMonth(y, m) <= MonthStart(y, m')
  {
  }

  /** Distinct valid dates have distinct day numbers. */
  lemma {:induction false} DayNumberInjective(a: Date, b: Date)
    requires ValidDate(a) && ValidDate(b)
    requires DayNumber(a) == DayNumber(b)
    ensures a == b
  {
    if a.year < b.year {
      YearStartMonotone(a.year + 1, b.year);
      YearStartStep(a.year);
      MonthsTileYear(a.year, a.month);
      if a.month < 12 { MonthStartMonotone(a.year, a.month, 12); MonthsTileYear(a.year, 12); }
      assert false;
    } else if b.year < a.year {
      YearStartMonotone(b.year + 1, a.year);
      YearStartStep(b.year);
      MonthsTileYear(b.year, b.month);
      if b.month < 12 { MonthStartMonotone(b.year, b.month, 12); MonthsTileYear(b.year, 12); }
      assert false;
    } else if a.month < b.month {
      MonthStartMonotone(a.year, a.month, b.month);
    } else if b.month < a.month {
      MonthStartMonotone(a.year, b.month, a.month);
    }
  }

  /** Day numbers and valid dates are in one-to-one correspondence. */
  lemma CivilFromDaysRoundTrip(d: Date)
    requires ValidDate(d)
    ensures CivilFromDays(DayNumber(d)) == d
  {
    DayNumberInjective(CivilFromDays(DayNumber(d)), d);
  }

  /** ECMAScript instants span 10^8 days either side of 1970-01-01, so their
      years have at most six digits. */
  lemma {:induction false} YearOfDayBounded(n: int)
    requires -100_000_000 <= n <= 100_000_000
    ensures -1_000_000 < CivilFromDays(n).year < 1_000_000
  {
    var d := CivilFromDays(n);
    MonthsTileYear(d.year, 12);
    if d.month < 12 { MonthStartMonotone(d.year, d.month, 12); }
    if d.year >= 1_000_000 {
      YearStartMonotone(1970, d.year);
    } else if d.year <= -1_000_000 {
      YearStartMonotone(d.year, 1970);
    }
  }

  /** Years 0..9999 are written in four digits; others as a sign and six
      digits (the expanded years of ECMAScript's date-time string format). */
  function YearText(y: int): (r: string)
    requires -1_000_000 < y < 1_000_000
  {
    if 0 <= y <= 9999 then PadDigits(y, 4)
    else if y < 0 then "-" + PadDigits(-y, 6)
    else "+" + PadDigits(y, 6)
  }

  /** A year's text is digits after an optional sign. */
  lemma YearTextChars(y: int)
    requires -1_000_000 < y < 1_000_000
    ensures forall i :: 0 <= i < |YearText(y)| ==> IsDigit(YearText(y)[i]) || YearText(y)[i] in "+-"
  {
    if y < 0 || y > 9999 {
      var p := PadDigits(if y < 0 then -y else y, 6);
      assert YearText(y)[1..] == p;
    }
  }

  predicate InTextRange(d: Date) {
    -1_000_000 < d.year < 1_000_000
  }

  /** `YYYY-MM-DD`: the calendar-date part of an ISO 8601 timestamp. */
  function DateText(d: Date): (r: string)
    requires ValidDate(d) && InTextRange(d)
  {
    YearText(d.year) + "-" + PadDigits(d.month, 2) + "-" + PadDigits(d.day, 2)
  }

  /** Reads back a `DateText`; None for any other text. */
  function ParseDateText(s: string): (r: Option<Date>)
  {
    var n := |s|;
    if n < 10 || s[n - 6] != '-' || s[n - 3] != '-' then None
    else
      var y, month, day := ParseYearText(s[..n - 6]), ParseNumber(s[n - 5..n - 3]), ParseNumber(s[n - 2..]);
      if y.None? || month.None? || day.None? then None
      else
        var d := Date(y.value, month.value, day.value);
        if ValidDate(d) then Some(d) else None
  }

  predicate AllDigits(s: string) {
    forall i :: 0 <= i < |s| ==> IsDigit(s[i])
  }

  /** The value of a text of decimal digits; None for any other text. */
  function ParseNumber(s: string): (r: Option<nat>)
    ensures r.Some? <==> AllDigits(s)
  {
    if AllDigits(s) then Some(DigitsValue(s)) else None
  }

  function ParseYearText(s: string): Option<int> {
    if |s| == 4 then ParseNumber(s)
    else if |s| == 7 && (s[0] == '+' || s[0] == '-') then
      var v := ParseNumber(s[1..]);
      if v.None? then None
      else
        var k: int := v.value;
        Some(if s[0] == '-' then -k else k)
    else None
  }

  /** Reading back the text of a date gives the date. */
  lemma DateTextRoundTrip(d: Date)
    requires ValidDate(d) && InTextRange(d)
    ensures ParseDateText(DateText(d)) == Some(d)
  {
    var y, m, dd := YearText(d.year), PadDigits(d.month, 2), PadDigits(d.day, 2);
    assert DateText(d) == y + "-" + m + "-" + dd;
    JoinedFields(y, m, dd);
    YearTextRoundTrip(d.year);
    PaddedDigitsReadBack(d.month, 2);
    PaddedDigitsReadBack(d.day, 2);
    ParseFields(y + "-" + m + "-" + dd, d);
  }

  /** Where the fields sit in `y-mm-dd`. */
  lemma JoinedFields(y: string, m: string, dd: string)
    requires |m| == 2 && |dd| == 2
    ensures var s, n := y + "-" + m + "-" + dd, |y| + 6;
            && |s| == n && s[n - 6] == '-' && s[n - 3] == '-'
            && s[n - 5..n - 3] == m && s[n - 2..] == dd && s[..n - 6] == y
  {
  }

  /** A text whose year, month and day fields read back as a date's own
      reads back as that date. */
  lemma ParseFields(s: string, d: Date)
    requires ValidDate(d)
    requires |s| >= 10 && s[|s| - 6] == '-' && s[|s| - 3] == '-'
    requires ParseYearText(s[..|s| - 6]) == Some(d.year)
    requires ParseNumber(s[|s| - 5..|s| - 3]) == Some(d.month) && ParseNumber(s[|s| - 2..]) == Some(d.day)
    ensures ParseDateText(s) == Some(d)
  {
    assert Date(d.year, d.month, d.day) == d;
  }

  /** Padded digits read back as the number they pad. */
  lemma PaddedDigitsReadBack(n: nat, w: nat)
    requires n < Pow10(w)
    ensures ParseNumber(PadDigits(n, w)) == Some(n)
  {
  }

  /** Reading back the text of a year gives the year. */
  lemma YearTextRoundTrip(y: int)
    requires -1_000_000 < y < 1_000_000
    ensures ParseYearText(YearText(y)) == Some(y)
  {
    if y < 0 || y > 9999 {
      assert YearText(y)[1..] == PadDigits(if y < 0 then -y else y, 6);
    }
  }
}
