/**
 * The parts of Python's `datetime` module that the reminder check relies on:
 * proleptic Gregorian dates in years 1..9999, `date.toordinal()`, the day count
 * of `date - date`, `str(date)` ("YYYY-MM-DD") and `str(datetime)` of a naive
 * datetime with no microseconds ("YYYY-MM-DD HH:MM:SS").
 */
module DateTime {

  /** Year, month and day, not yet known to be a calendar date. */
  datatype Ymd = Ymd(year: int, month: int, day: int)

  predicate IsLeap(year: int)
  {
    year % 4 == 0 && (year % 100 != 0 || year % 400 == 0)
  }

  function DaysInMonth(year: int, month: int): (n: int)
    requires 1 <= month <= 12
    ensures 28 <= n <= 31
  {
    if month == 2 then (if IsLeap(year) then 29 else 28)
    else if month == 4 || month == 6 || month == 9 || month == 11 then 30
    else 31
  }

  function DaysInYear(year: int): (n: int)
    ensures n == 365 || n == 366
  {
    if IsLeap(year) then 366 else 365
  }

  /** `datetime.MINYEAR <= year <= datetime.MAXYEAR` and a real day of a real month. */
  predicate IsDate(d: Ymd)
  {
    1 <= d.year <= 9999 && 1 <= d.month <= 12 && 1 <= d.day <= DaysInMonth(d.year, d.month)
  }

  /** A value of Python's `datetime.date`. */
  type Date = d: Ymd | IsDate(d) witness Ymd(1, 1, 1)

  /** Time of day of a naive `datetime`, to the second. */
  type SecondOfDay = s: int | 0 <= s < 86400

  /** A value of Python's naive `datetime.datetime`: a date and a time of day. */
  datatype Instant = Instant(date: Date, second: SecondOfDay)

  /** Chronological order of dates: year, then month, then day. */
  predicate DateBefore(a: Date, b: Date)
  {
    a.year < b.year
    || (a.year == b.year && a.month < b.month)
    || (a.year == b.year && a.month == b.month && a.day < b.day)
  }

  /** `a <= b` on datetimes: by date, then by time of day. */
  predicate InstantLe(a: Instant, b: Instant)
  {
    DateBefore(a.date, b.date) || (a.date == b.date && a.second <= b.second)
  }

  /** Days in the years 1 .. year-1 (Python's `_days_before_year`). */
  function DaysBeforeYear(year: int): (n: int)
    requires year >= 1
  {
    var y := year - 1;
    y * 365 + y / 4 - y / 100 + y / 400
  }

  /** Days in the months of `year` before `month` (Python's `_days_before_month`). */
  function DaysBeforeMonth(year: int, month: int): (n: int)
    requires 1 <= month <= 12
  {
    [0, 31, 59, 90, 120, 151, 181, 212, 243, 273, 304, 334][month - 1]
      + (if month > 2 && IsLeap(year) then 1 else 0)
  }

  /** `date.toordinal()`: 0001-01-01 is day 1. */
  function Ordinal(d: Date): (n: int)
  {
    DaysBeforeYear(d.year) + DaysBeforeMonth(d.year, d.month) + d.day
  }

  /** `(b - a).days` for two dates. */
  function DaysBetween(a: Date, b: Date): (n: int)
  {
    Ordinal(b) - Ordinal(a)
  }

  /** The calendar day after `d` (`d + timedelta(days=1)`); there is none after 9999-12-31. */
  function NextDay(d: Date): (n: Date)
    requires d != Ymd(9999, 12, 31)
  {
    if d.day < DaysInMonth(d.year, d.month) then Ymd(d.year, d.month, d.day + 1)
    else if d.month < 12 then Ymd(d.year, d.month + 1, 1)
    else Ymd(d.year + 1, 1, 1)
  }

  /** Moving from `n` to `n + 1` adds one to `n / k` exactly when `k` divides `n + 1`. */
  lemma DivSucc(n: int)
    requires n >= 0
    ensures (n + 1) / 4 == n / 4 + (if (n + 1) % 4 == 0 then 1 else 0)
    ensures (n + 1) / 100 == n / 100 + (if (n + 1) % 100 == 0 then 1 else 0)
    ensures (n + 1) / 400 == n / 400 + (if (n + 1) % 400 == 0 then 1 else 0)
  {
  }

  /** A year contributes its own length to the days before the next one. */
  /** A multiple of 400 is a multiple of 100, and a multiple of 100 one of 4. */
  lemma DivisorChain(year: int)
    ensures year % 400 == 0 ==> year % 100 == 0
    ensures year % 100 == 0 ==> year % 4 == 0
  {
    if year % 400 == 0 {
      var q := year / 400;
      assert year == 400 * q;
      assert year / 100 == 4 * q;
    }
    if year % 100 == 0 {
      var q := year / 100;
      assert year == 100 * q;
      assert year / 4 == 25 * q;
    }
  }

  lemma YearStep(year: int)
    requires year >= 1
    ensures DaysBeforeYear(year + 1) == DaysBeforeYear(year) + DaysInYear(year)
  {
    var y := year - 1;
    DivSucc(y);
    DivisorChain(year);
    assert DaysBeforeYear(year) == y * 365 + y / 4 - y / 100 + y / 400;
    assert DaysBeforeYear(year + 1) == year * 365 + year / 4 - year / 100 + year / 400;
    if year % 4 != 0 {
      assert year / 4 == y / 4 && year / 100 == y / 100 && year / 400 == y / 400;
      assert !IsLeap(year);
    } else if year % 100 != 0 {
      assert year / 4 == y / 4 + 1 && year / 100 == y / 100 && year / 400 == y / 400;
      assert IsLeap(year);
    } else if year % 400 != 0 {
      assert year / 4 == y / 4 + 1 && year / 100 == y / 100 + 1 && year / 400 == y / 400;
      assert !IsLeap(year);
    } else {
      assert year / 4 == y / 4 + 1 && year / 100 == y / 100 + 1 && year / 400 == y / 400 + 1;
      assert IsLeap(year);
    }
  }

  lemma {:induction false} YearsBefore(y1: int, y2: int)
    requires 1 <= y1 < y2
    ensures DaysBeforeYear(y1) + DaysInYear(y1) <= DaysBeforeYear(y2)
    decreases y2 - y1
  {
    YearStep(y1);
    if y1 + 1 < y2 {
      YearsBefore(y1 + 1, y2);
    }
  }

  lemma MonthStep(year: int, month: int)
    requires 1 <= month < 12
    ensures DaysBeforeMonth(year, month) + DaysInMonth(year, month) == DaysBeforeMonth(year, month + 1)
  {
  }

  lemma {:induction false} MonthsBefore(year: int, m1: int, m2: int)
    requires 1 <= m1 < m2 <= 12
    ensures DaysBeforeMonth(year, m1) + DaysInMonth(year, m1) <= DaysBeforeMonth(year, m2)
    decreases m2 - m1
  {
    MonthStep(year, m1);
    if m1 + 1 < m2 {
      MonthsBefore(year, m1 + 1, m2);
    }
  }

  /** Every day of a year lies within that year's length. */
  lemma DayOfYearBound(d: Date)
    ensures DaysBeforeMonth(d.year, d.month) + d.day <= DaysInYear(d.year)
  {
    if d.month < 12 {
      MonthsBefore(d.year, d.month, 12);
    }
  }

  /** Ordinals follow the calendar: an earlier date has a smaller day number. */
  lemma OrdinalMonotone(a: Date, b: Date)
    requires DateBefore(a, b)
    ensures Ordinal(a) < Ordinal(b)
  {
    if a.year < b.year {
      DayOfYearBound(a);
      YearsBefore(a.year, b.year);
    } else if a.month < b.month {
      MonthsBefore(a.year, a.month, b.month);
    }
  }

  /**
   * Ordinals count calendar days: the next day's ordinal is one more, so
   * `(b - a).days` is the number of days from `a` to `b`.
   */
  lemma OrdinalNextDay(d: Date)
    requires d != Ymd(9999, 12, 31)
    ensures Ordinal(NextDay(d)) == Ordinal(d) + 1
    ensures DaysBetween(d, NextDay(d)) == 1
    ensures DateBefore(d, NextDay(d))
  {
    if d.day == DaysInMonth(d.year, d.month) {
      if d.month < 12 {
        MonthStep(d.year, d.month);
      } else {
        YearStep(d.year);
      }
    }
  }

  /** Two dates are the same day exactly when their ordinals agree. */
  lemma OrdinalInjective(a: Date, b: Date)
    ensures Ordinal(a) == Ordinal(b) <==> a == b
  {
    if DateBefore(a, b) {
      OrdinalMonotone(a, b);
    } else if DateBefore(b, a) {
      OrdinalMonotone(b, a);
    }
  }

  /** The sign of `(b - a).days` is the chronological order of the two dates. */
  lemma DaysBetweenSign(a: Date, b: Date)
    ensures DaysBetween(a, b) < 0 <==> DateBefore(b, a)
    ensures DaysBetween(a, b) == 0 <==> a == b
    ensures DaysBetween(a, b) > 0 <==> DateBefore(a, b)
  {
    OrdinalInjective(a, b);
    if DateBefore(a, b) {
      OrdinalMonotone(a, b);
    } else if DateBefore(b, a) {
      OrdinalMonotone(b, a);
    }
  }

  function Pow10(w: nat): (p: nat)
    ensures p >= 1
  {
    if w == 0 then 1 else 10 * Pow10(w - 1)
  }

  function Digit(n: int): (c: char)
    requires 0 <= n < 10
  {
    "0123456789"[n]
  }

  /** `"%0*d" % (w, n)`: the last `w` decimal digits of `n`, zero-padded. */
  function Pad(n: nat, w: nat): (s: string)
    ensures |s| == w
  {
    if w == 0 then "" else Pad(n / 10, w - 1) + [Digit(n % 10)]
  }

  /** A zero-padded field of a fixed width determines the number it shows. */
  lemma {:induction false} PadInjective(a: nat, b: nat, w: nat)
    requires a < Pow10(w) && b < Pow10(w)
    requires Pad(a, w) == Pad(b, w)
    ensures a == b
  {
    if w > 0 {
      var pa, pb := Pad(a / 10, w - 1), Pad(b / 10, w - 1);
      assert Pad(a, w)[..w - 1] == pa && Pad(b, w)[..w - 1] == pb;
      assert Pad(a, w)[w - 1] == Digit(a % 10) && Pad(b, w)[w - 1] == Digit(b % 10);
      PadInjective(a / 10, b / 10, w - 1);
    }
  }

  /** `str(date)`, that is `date.isoformat()`: "YYYY-MM-DD". */
  function IsoDate(d: Date): (s: string)
    ensures |s| == 10
  {
    Pad(d.year, 4) + "-" + Pad(d.month, 2) + "-" + Pad(d.day, 2)
  }

  /** Distinct dates have distinct strings, so comparing strings compares dates. */
  lemma IsoDateInjective(a: Date, b: Date)
    ensures IsoDate(a) == IsoDate(b) <==> a == b
  {
    if IsoDate(a) == IsoDate(b) {
      var s, t := IsoDate(a), IsoDate(b);
      assert s[..4] == Pad(a.year, 4) && t[..4] == Pad(b.year, 4);
      assert s[5..7] == Pad(a.month, 2) && t[5..7] == Pad(b.month, 2);
      assert s[8..] == Pad(a.day, 2) && t[8..] == Pad(b.day, 2);
      assert Pow10(2) == 100 && Pow10(4) == 10000;
      PadInjective(a.year, b.year, 4);
      PadInjective(a.month, b.month, 2);
      PadInjective(a.day, b.day, 2);
    }
  }

  /** `str(datetime)` of a naive datetime without microseconds: "YYYY-MM-DD HH:MM:SS". */
  function IsoInstant(t: Instant): (s: string)
    ensures |s| == 19
  {
    IsoDate(t.date) + " " + Pad(t.second / 3600, 2) + ":" + Pad(t.second % 3600 / 60, 2)
      + ":" + Pad(t.second % 60, 2)
  }

  /** Hours, minutes and seconds determine the second of the day. */
  lemma ClockFields(a: SecondOfDay, b: SecondOfDay)
    requires a / 3600 == b / 3600 && a % 3600 / 60 == b % 3600 / 60 && a % 60 == b % 60
    ensures a == b
  {
    assert a == a / 3600 * 3600 + a % 3600 / 60 * 60 + a % 60;
    assert b == b / 3600 * 3600 + b % 3600 / 60 * 60 + b % 60;
  }

  /** The string of a datetime determines the datetime. */
  lemma IsoInstantInjective(a: Instant, b: Instant)
    ensures IsoInstant(a) == IsoInstant(b) <==> a == b
  {
    if IsoInstant(a) == IsoInstant(b) {
      var s, t := IsoInstant(a), IsoInstant(b);
      assert s[..10] == IsoDate(a.date) && t[..10] == IsoDate(b.date);
      IsoDateInjective(a.date, b.date);
      assert s[11..13] == Pad(a.second / 3600, 2) && t[11..13] == Pad(b.second / 3600, 2);
      assert s[14..16] == Pad(a.second % 3600 / 60, 2) && t[14..16] == Pad(b.second % 3600 / 60, 2);
      assert s[17..] == Pad(a.second % 60, 2) && t[17..] == Pad(b.second % 60, 2);
      assert Pow10(2) == 100;
      PadInjective(a.second / 3600, b.second / 3600, 2);
      PadInjective(a.second % 3600 / 60, b.second % 3600 / 60, 2);
      PadInjective(a.second % 60, b.second % 60, 2);
      ClockFields(a.second, b.second);
    }
  }
}
