/** Points in time as ECMAScript's `Date` holds them: whole milliseconds since
    1970-01-01T00:00:00Z. The calendar day of an instant, its start of day,
    and the ISO 8601 text `Date.prototype.toISOString` produces.
    All day arithmetic is in UTC. */
module Instants {
  import opened Text
  import opened Calendar

  const MsPerDay: int := 86_400_000

  /** The largest magnitude a valid `Date` may hold (10^8 days). */
  const MaxTime: int := 8_640_000_000_000_000

  type Instant = t: int | -MaxTime <= t <= MaxTime

  /** Number of the calendar day holding `t`. */
  function Day(t: int): (d: int)
    ensures d * MsPerDay <= t < d * MsPerDay + MsPerDay
  {
    t / MsPerDay
  }

  /** Any day number `d` whose day contains `t` is `Day(t)`. */
  lemma DayUnique(t: int, d: int)
    requires d * MsPerDay <= t < d * MsPerDay + MsPerDay
    ensures Day(t) == d
  {
  }

  lemma DayOfValidInstant(t: Instant)
    ensures -100_000_000 <= Day(t) <= 100_000_000
  {
  }

  /** The first millisecond of the day holding `t`: `setHours(0, 0, 0, 0)`. */
  function StartOfDay(t: int): (s: int)
    ensures s <= t < s + MsPerDay
    ensures Day(s) == Day(t)
    ensures s % MsPerDay == 0
  {
    DayUnique(Day(t) * MsPerDay, Day(t));
    Day(t) * MsPerDay
  }

  /** `Math.ceil(a / b)` for integers, with `b` positive. */
  function CeilDiv(a: int, b: int): (q: int)
    requires b > 0
    ensures (q - 1) * b < a <= q * b
  {
    -((-a) / b)
  }

  /** The calendar date of an instant. */
  function DateOf(t: Instant): (d: Date)
    ensures ValidDate(d) && InTextRange(d)
    ensures DayNumber(d) == Day(t)
  {
    DayOfValidInstant(t);
    YearOfDayBounded(Day(t));
    CivilFromDays(Day(t))
  }

  /** `HH:mm:ss.sss` for a millisecond offset into a day. */
  function TimeText(ms: int): (r: string)
    requires 0 <= ms < MsPerDay
    ensures forall i :: 0 <= i < |r| ==> r[i] != 'T'
  {
    PadDigits(ms / 3_600_000, 2) + ":" + PadDigits(ms / 60_000 % 60, 2) + ":"
    + PadDigits(ms / 1000 % 60, 2) + "." + PadDigits(ms % 1000, 3)
  }

  /** `new Date(t).toISOString()`: `YYYY-MM-DDTHH:mm:ss.sssZ` in UTC. */
  function IsoString(t: Instant): string {
    DateText(DateOf(t)) + "T" + TimeText(t - StartOfDay(t)) + "Z"
  }

  /** The date text contains no `T`: only digits, signs and dashes. */
  lemma DateTextHasNoT(d: Date)
    requires ValidDate(d) && InTextRange(d)
    ensures 'T' !in DateText(d)
  {
    var y, m, dd := YearText(d.year), PadDigits(d.month, 2), PadDigits(d.day, 2);
    YearTextChars(d.year);
    var s := DateText(d);
    assert s == y + "-" + m + "-" + dd;
    forall i | 0 <= i < |s| ensures s[i] != 'T' {
      if i < |y| {
        assert s[i] == y[i];
      } else if i == |y| || i == |y| + 3 {
        assert s[i] == '-';
      } else if i < |y| + 3 {
        assert s[i] == m[i - |y| - 1];
      } else {
        assert s[i] == dd[i - |y| - 4];
      }
    }
  }
}
