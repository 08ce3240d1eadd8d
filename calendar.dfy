/** Naive `datetime` values as the merger uses them (supynote/merger.py): their order, the
    day arithmetic of `now - timedelta(days=n)`, and the two `strftime` renderings the
    merger prints. */
module Calendar {
  import opened Wrappers
  import opened Text

  /** A naive `datetime`: calendar fields and the time of day down to microseconds. */
  datatype DateTime = DateTime(year: int, month: int, day: int,
                               hour: int, minute: int, second: int, micro: int)

  predicate Leap(y: int)
  {
    y % 4 == 0 && (y % 100 != 0 || y % 400 == 0)
  }

  /** The number of days in month `m` of year `y` (31 for a month outside 1..12). */
  function DaysInMonth(y: int, m: int): nat
  {
    if m == 2 then (if Leap(y) then 29 else 28)
    else if m == 4 || m == 6 || m == 9 || m == 11 then 30
    else 31
  }

  function YearLength(y: int): nat
  {
    if Leap(y) then 366 else 365
  }

  /** What `datetime(...)` accepts: years 1 to 9999 and in-range fields. */
  predicate Valid(t: DateTime)
  {
    && 1 <= t.year <= 9999
    && 1 <= t.month <= 12
    && 1 <= t.day <= DaysInMonth(t.year, t.month)
    && 0 <= t.hour < 24 && 0 <= t.minute < 60 && 0 <= t.second < 60
    && 0 <= t.micro < 1000000
  }

  /** The values a `datetime` object can hold. */
  type Moment = t: DateTime | Valid(t) witness DateTime(1, 1, 1, 0, 0, 0, 0)

  /** Python's `a < b` on naive datetimes: field by field, most significant first. */
  predicate Before(a: DateTime, b: DateTime)
  {
    || a.year < b.year
    || (a.year == b.year && a.month < b.month)
    || (a.year == b.year && a.month == b.month && a.day < b.day)
    || (a.year == b.year && a.month == b.month && a.day == b.day && a.hour < b.hour)
    || (a.year == b.year && a.month == b.month && a.day == b.day && a.hour == b.hour
        && a.minute < b.minute)
    || (a.year == b.year && a.month == b.month && a.day == b.day && a.hour == b.hour
        && a.minute == b.minute && a.second < b.second)
    || (a.year == b.year && a.month == b.month && a.day == b.day && a.hour == b.hour
        && a.minute == b.minute && a.second == b.second && a.micro < b.micro)
  }

  /** `<` on datetimes is a strict total order. */
  lemma BeforeIsStrictTotal(a: DateTime, b: DateTime, c: DateTime)
    ensures !Before(a, a)
    ensures Before(a, b) ==> !Before(b, a)
    ensures Before(a, b) && Before(b, c) ==> Before(a, c)
    ensures a != b ==> Before(a, b) || Before(b, a)
  {
  }

  /** The days of the years before `y` (`_days_before_year`). */
  function DaysBeforeYear(y: int): nat
    requires y >= 1
  {
    if y == 1 then 0 else DaysBeforeYear(y - 1) + YearLength(y - 1)
  }

  /** The days of the months before `m` in year `y` (`_days_before_month`). */
  function DaysBeforeMonth(y: int, m: int): nat
    requires 1 <= m <= 12
  {
    [0, 31, 59, 90, 120, 151, 181, 212, 243, 273, 304, 334][m - 1] + (if m > 2 && Leap(y) then 1 else 0)
  }

  /** `date.toordinal()`: 1 for 0001-01-01, one more for every following day. */
  function Ordinal(t: DateTime): int
    requires Valid(t)
  {
    DaysBeforeYear(t.year) + DaysBeforeMonth(t.year, t.month) + t.day
  }

  /** The month table adds up. */
  lemma MonthSteps(y: int, m: int)
    requires 1 <= m <= 12
    ensures m < 12 ==> DaysBeforeMonth(y, m + 1) == DaysBeforeMonth(y, m) + DaysInMonth(y, m)
    ensures m == 12 ==> DaysBeforeMonth(y, m) + DaysInMonth(y, m) == YearLength(y)
  {
  }

  /** The same day and time one day earlier; `None` before 0001-01-01. */
  function PrevDay(t: DateTime): Option<DateTime>
  {
    if t.day > 1 then Some(t.(day := t.day - 1))
    else if t.month > 1 then Some(t.(month := t.month - 1, day := DaysInMonth(t.year, t.month - 1)))
    else if t.year > 1 then Some(t.(year := t.year - 1, month := 12, day := 31))
    else None
  }

  /** `t - timedelta(days=n)`; `None` for the OverflowError of a result before year 1. */
  function SubDays(t: DateTime, n: nat): Option<DateTime>
    decreases n
  {
    if n == 0 then Some(t)
    else
      match PrevDay(t)
      case None => None
      case Some(p) => SubDays(p, n - 1)
  }

  predicate SameClock(a: DateTime, b: DateTime)
  {
    a.hour == b.hour && a.minute == b.minute && a.second == b.second && a.micro == b.micro
  }

  /** Every year before year `y` makes year `y` start later. */
  lemma {:induction false} DaysBeforeYearGrows(x: int, y: int)
    requires 1 <= x <= y
    ensures DaysBeforeYear(x) + 365 * (y - x) <= DaysBeforeYear(y)
    decreases y - x
  {
    if x < y {
      DaysBeforeYearGrows(x, y - 1);
    }
  }

  /** Going back one day lowers the ordinal by one and keeps the time of day; it fails
      only on the first day of year 1. */
  lemma PrevDayOrdinal(t: DateTime)
    requires Valid(t)
    ensures PrevDay(t).None? <==> Ordinal(t) == 1
    ensures PrevDay(t).Some? ==>
      (Valid(PrevDay(t).value) && SameClock(PrevDay(t).value, t) && Ordinal(PrevDay(t).value) == Ordinal(t) - 1)
  {
    if t.day == 1 && t.month > 1 {
      MonthSteps(t.year, t.month - 1);
    } else if t.day == 1 && t.month == 1 && t.year > 1 {
      MonthSteps(t.year - 1, 12);
      DaysBeforeYearGrows(1, t.year);
    } else if t.year > 1 {
      DaysBeforeYearGrows(1, t.year);
    }
  }

  /** `t - timedelta(days=n)` is the moment with the same time of day `n` ordinals
      earlier, and overflows exactly when that would be before the first ordinal. */
  lemma {:induction false} SubDaysOrdinal(t: DateTime, n: nat)
    requires Valid(t)
    ensures SubDays(t, n).None? <==> Ordinal(t) <= n
    ensures SubDays(t, n).Some? ==>
      (Valid(SubDays(t, n).value) && SameClock(SubDays(t, n).value, t) && Ordinal(SubDays(t, n).value) == Ordinal(t) - n)
    decreases n
  {
    if n > 0 {
      PrevDayOrdinal(t);
      if PrevDay(t).Some? {
        SubDaysOrdinal(PrevDay(t).value, n - 1);
      }
    }
  }

  /** Between valid datetimes on different days, the earlier calendar day has the smaller
      ordinal. */
  lemma OrdinalFollowsDays(a: DateTime, b: DateTime)
    requires Valid(a) && Valid(b)
    requires Before(a, b) && (a.year, a.month, a.day) != (b.year, b.month, b.day)
    ensures Ordinal(a) < Ordinal(b)
  {
    MonthSteps(a.year, a.month);
    if a.year < b.year {
      MonthBound(a.year, a.month);
      DaysBeforeYearSteps(a.year, b.year);
    } else if a.month < b.month {
      MonthsGrow(a.year, a.month + 1, b.month);
    }
  }

  /** A month's days end no later than its year does. */
  lemma MonthBound(y: int, m: int)
    requires 1 <= m <= 12
    ensures DaysBeforeMonth(y, m) + DaysInMonth(y, m) <= YearLength(y)
  {
  }

  lemma {:induction false} DaysBeforeYearSteps(x: int, y: int)
    requires 1 <= x < y
    ensures DaysBeforeYear(x) + YearLength(x) <= DaysBeforeYear(y)
    decreases y - x
  {
    if x + 1 < y {
      DaysBeforeYearSteps(x + 1, y);
    }
  }

  lemma MonthsGrow(y: int, m: int, n: int)
    requires 1 <= m <= n <= 12
    ensures DaysBeforeMonth(y, m) <= DaysBeforeMonth(y, n)
  {
  }

  /** The cutoff `now - timedelta(days=n)` for `n > 0` is strictly before `now`. */
  lemma SubDaysIsEarlier(t: DateTime, n: nat)
    requires Valid(t) && n > 0 && SubDays(t, n).Some?
    ensures Before(SubDays(t, n).value, t)
  {
    var c := SubDays(t, n).value;
    SubDaysOrdinal(t, n);
    if !Before(c, t) {
      BeforeIsStrictTotal(c, t, t);
      if c != t {
        OrdinalFollowsDays(t, c);
      }
    }
  }

  /** `strftime('%H:%M:%S')`. */
  function Clock(t: Moment): string
  {
    Padded(t.hour, 2) + ":" + Padded(t.minute, 2) + ":" + Padded(t.second, 2)
  }

  /** `strftime('%Y-%m-%d')`, the four-digit year of the ISO form. */
  function DayKey(t: Moment): string
  {
    Padded(t.year, 4) + "-" + Padded(t.month, 2) + "-" + Padded(t.day, 2)
  }

  /** The clock text of a valid datetime reads back as its hour, minute and second. */
  lemma ClockRoundTrip(t: Moment)
    ensures |Clock(t)| == 8 && Clock(t)[2] == ':' && Clock(t)[5] == ':'
    ensures AllDigits(Clock(t)[0..2]) && DigitsValue(Clock(t)[0..2]) == t.hour
    ensures AllDigits(Clock(t)[3..5]) && DigitsValue(Clock(t)[3..5]) == t.minute
    ensures AllDigits(Clock(t)[6..8]) && DigitsValue(Clock(t)[6..8]) == t.second
  {
    var c := Clock(t);
    assert c[0..2] == Padded(t.hour, 2);
    assert c[3..5] == Padded(t.minute, 2);
    assert c[6..8] == Padded(t.second, 2);
  }

  /** The day key of a valid datetime reads back as its year, month and day. */
  lemma DayKeyRoundTrip(t: Moment)
    ensures |DayKey(t)| == 10 && DayKey(t)[4] == '-' && DayKey(t)[7] == '-'
    ensures AllDigits(DayKey(t)[0..4]) && DigitsValue(DayKey(t)[0..4]) == t.year
    ensures AllDigits(DayKey(t)[5..7]) && DigitsValue(DayKey(t)[5..7]) == t.month
    ensures AllDigits(DayKey(t)[8..10]) && DigitsValue(DayKey(t)[8..10]) == t.day
  {
    var k := DayKey(t);
    assert k[0..4] == Padded(t.year, 4);
    assert k[5..7] == Padded(t.month, 2);
    assert k[8..10] == Padded(t.day, 2);
  }

  /** Two valid datetimes share a day key exactly when they fall on the same calendar day. */
  lemma DayKeySameDay(a: Moment, b: Moment)
    ensures DayKey(a) == DayKey(b) <==> (a.year, a.month, a.day) == (b.year, b.month, b.day)
  {
    DayKeyRoundTrip(a);
    DayKeyRoundTrip(b);
  }
}
