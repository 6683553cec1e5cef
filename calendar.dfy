/**
 * The proleptic Gregorian calendar of Python's `datetime` module, as
 * integer records: what `datetime.datetime(...)` accepts, the ordinal
 * day number behind `toordinal()`/`weekday()`, and the minute arithmetic
 * behind subtracting a `timedelta` of whole minutes.
 */
module Calendar {
  import opened Text

  const MinYear := 1
  const MaxYear := 9999
  const MinutesPerDay := 1440

  /** A naive `datetime.datetime` (microseconds are never set by the parsers). */
  datatype DateTime = DateTime(year: int, month: int, day: int, hour: int, minute: int, second: int)

  predicate IsLeap(y: int)
  {
    y % 4 == 0 && (y % 100 != 0 || y % 400 == 0)
  }

  function DaysInMonth(y: int, m: int): (n: int)
    ensures 1 <= m <= 12 ==> 28 <= n <= 31
  {
    if m == 2 then (if IsLeap(y) then 29 else 28)
    else if m == 4 || m == 6 || m == 9 || m == 11 then 30
    else 31
  }

  function DaysInYear(y: int): (n: int)
    ensures n == 365 || n == 366
  {
    if IsLeap(y) then 366 else 365
  }

  predicate ValidDate(y: int, m: int, d: int)
  {
    MinYear <= y <= MaxYear && 1 <= m <= 12 && 1 <= d <= DaysInMonth(y, m)
  }

  predicate ValidTime(h: int, mi: int, s: int)
  {
    0 <= h < 24 && 0 <= mi < 60 && 0 <= s < 60
  }

  /** Exactly the field values `datetime.datetime(y, m, d, h, mi, s)` accepts without raising. */
  predicate Valid(t: DateTime)
  {
    ValidDate(t.year, t.month, t.day) && ValidTime(t.hour, t.minute, t.second)
  }

  // ---------------------------------------------------------------------
  // ordinal day numbers (1 == 0001-01-01)

  /** Days of the years 1 .. y-1. */
  function DaysBeforeYear(y: int): (n: nat)
    requires y >= 1
  {
    if y == 1 then 0 else DaysBeforeYear(y - 1) + DaysInYear(y - 1)
  }

  /** Days of the months 1 .. m-1 of year y. */
  function DaysBeforeMonth(y: int, m: int): (n: nat)
    requires 1 <= m <= 13
  {
    if m == 1 then 0 else DaysBeforeMonth(y, m - 1) + DaysInMonth(y, m - 1)
  }

  lemma DaysBeforeMonthWholeYear(y: int)
    ensures DaysBeforeMonth(y, 13) == DaysInYear(y)
  {
    var m := 1;
    while m < 13
      invariant 1 <= m <= 13
      invariant DaysBeforeMonth(y, m) == if m <= 2 then 31 * (m - 1) else DaysInMonth(y, 2) + CommonDaysBefore(m)
    {
      m := m + 1;
    }
  }

  /** Days of the months 1 .. m-1, February excluded (3 <= m <= 13). */
  function CommonDaysBefore(m: int): int
  {
    if m <= 3 then 31 else CommonDaysBefore(m - 1) + DaysInMonth(1, m - 1)
  }

  /** `date.toordinal()`. */
  function Ordinal(y: int, m: int, d: int): int
    requires y >= 1 && 1 <= m <= 12
  {
    DaysBeforeYear(y) + DaysBeforeMonth(y, m) + d
  }

  /** The last ordinal `datetime` can represent (9999-12-31). */
  function MaxOrdinal(): nat
  {
    DaysBeforeYear(MaxYear + 1)
  }

  lemma {:induction false} DaysBeforeYearMono(a: int, b: int)
    requires 1 <= a <= b
    ensures DaysBeforeYear(a) + 365 * (b - a) <= DaysBeforeYear(b)
    decreases b - a
  {
    if a < b {
      DaysBeforeYearMono(a, b - 1);
    }
  }

  /** Walk forward from year `y` to find the year holding day `n` of the count that starts at `y`. */
  function YearOf(n: int, y: int): (r: (int, int))
    requires n >= 1 && y >= 1
    ensures r.0 >= y && 1 <= r.1 <= DaysInYear(r.0)
    ensures DaysBeforeYear(r.0) + r.1 == DaysBeforeYear(y) + n
    decreases n
  {
    if n <= DaysInYear(y) then (y, n) else YearOf(n - DaysInYear(y), y + 1)
  }

  /** Walk forward from month `m` to find the month holding day `n` of the count that starts at `m`. */
  function MonthOf(y: int, n: int, m: int): (r: (int, int))
    requires 1 <= m <= 12
    requires 1 <= n <= DaysInYear(y) - DaysBeforeMonth(y, m)
    ensures m <= r.0 <= 12 && 1 <= r.1 <= DaysInMonth(y, r.0)
    ensures DaysBeforeMonth(y, r.0) + r.1 == DaysBeforeMonth(y, m) + n
    decreases 12 - m
  {
    DaysBeforeMonthWholeYear(y);
    if n <= DaysInMonth(y, m) then (m, n)
    else MonthOf(y, n - DaysInMonth(y, m), m + 1)
  }

  /** `date.fromordinal(n)`, defined on every ordinal >= 1 (the year may exceed 9999). */
  function FromOrdinal(n: int): (r: (int, int, int))
    requires n >= 1
    ensures r.0 >= 1 && 1 <= r.1 <= 12 && 1 <= r.2 <= DaysInMonth(r.0, r.1)
    ensures Ordinal(r.0, r.1, r.2) == n
  {
    var (y, k) := YearOf(n, 1);
    DaysBeforeMonthWholeYear(y);
    var (m, d) := MonthOf(y, k, 1);
    (y, m, d)
  }

  lemma {:induction false} YearOfUnique(y0: int, y: int, k: int)
    requires 1 <= y0 <= y && 1 <= k <= DaysInYear(y)
    ensures DaysBeforeYear(y0) <= DaysBeforeYear(y)
    ensures YearOf(DaysBeforeYear(y) - DaysBeforeYear(y0) + k, y0) == (y, k)
    decreases y - y0
  {
    if y0 < y {
      YearOfUnique(y0 + 1, y, k);
      YearOfStep(y0, y, k);
    }
  }

  /** A day of a later year is looked up from the year after `y0` on. */
  lemma YearOfStep(y0: int, y: int, k: int)
    requires 1 <= y0 < y && 1 <= k && DaysBeforeYear(y0 + 1) <= DaysBeforeYear(y)
    ensures DaysBeforeYear(y0) <= DaysBeforeYear(y0 + 1)
    ensures YearOf(DaysBeforeYear(y) - DaysBeforeYear(y0) + k, y0)
         == YearOf(DaysBeforeYear(y) - DaysBeforeYear(y0 + 1) + k, y0 + 1)
  {
    assert DaysBeforeYear(y0 + 1) == DaysBeforeYear(y0) + DaysInYear(y0);
  }

  lemma {:induction false} MonthOfUnique(y: int, m0: int, m: int, d: int)
    requires 1 <= m0 <= m <= 12 && 1 <= d <= DaysInMonth(y, m)
    requires DaysBeforeMonth(y, m0) <= DaysBeforeMonth(y, m) && DaysBeforeMonth(y, m) + d <= DaysInYear(y)
    ensures MonthOf(y, DaysBeforeMonth(y, m) - DaysBeforeMonth(y, m0) + d, m0) == (m, d)
    decreases m - m0
  {
    if m0 == m {
      MonthOfHere(y, d, m);
    } else {
      MonthBoundsBelow(y, m0 + 1, m);
      var rest := DaysBeforeMonth(y, m) - DaysBeforeMonth(y, m0 + 1) + d;
      assert MonthOf(y, rest, m0 + 1) == (m, d) by {
        MonthOfUnique(y, m0 + 1, m, d);
      }
      MonthOfStep(y, m0, m, d);
    }
  }

  /** Day `d` of month `m` lies after the months before it and within the year. */
  lemma MonthOfBounds(y: int, m: int, d: int)
    requires 1 <= m <= 12 && 1 <= d <= DaysInMonth(y, m)
    ensures DaysBeforeMonth(y, m) + d <= DaysInYear(y)
  {
    DaysBeforeMonthWholeYear(y);
    MonthBoundsBelow(y, m + 1, 13);
  }

  /** A day within month `m` is found at `m`. */
  lemma MonthOfHere(y: int, d: int, m: int)
    requires 1 <= m <= 12 && 1 <= d <= DaysInMonth(y, m)
    requires d <= DaysInYear(y) - DaysBeforeMonth(y, m)
    ensures MonthOf(y, d, m) == (m, d)
  {
  }

  /** A day of a later month is looked up from the month after `m0` on. */
  lemma MonthOfStep(y: int, m0: int, m: int, d: int)
    requires 1 <= m0 < m <= 12 && 1 <= d
    requires DaysBeforeMonth(y, m0 + 1) <= DaysBeforeMonth(y, m) && DaysBeforeMonth(y, m) + d <= DaysInYear(y)
    ensures DaysBeforeMonth(y, m0) <= DaysBeforeMonth(y, m0 + 1)
    ensures MonthOf(y, DaysBeforeMonth(y, m) - DaysBeforeMonth(y, m0) + d, m0)
         == MonthOf(y, DaysBeforeMonth(y, m) - DaysBeforeMonth(y, m0 + 1) + d, m0 + 1)
  {
    assert DaysBeforeMonth(y, m0 + 1) == DaysBeforeMonth(y, m0) + DaysInMonth(y, m0);
  }

  lemma {:induction false} MonthBoundsBelow(y: int, a: int, b: int)
    requires 1 <= a <= b <= 13
    ensures DaysBeforeMonth(y, a) <= DaysBeforeMonth(y, b)
    decreases b - a
  {
    if a < b {
      MonthBoundsBelow(y, a, b - 1);
    }
  }

  /** `fromordinal(toordinal(d)) == d` for every date with a year >= 1. */
  lemma FromOrdinalOrdinal(y: int, m: int, d: int)
    requires y >= 1 && 1 <= m <= 12 && 1 <= d <= DaysInMonth(y, m)
    ensures FromOrdinal(Ordinal(y, m, d)) == (y, m, d)
  {
    var k := DaysBeforeMonth(y, m) + d;
    assert MonthOf(y, k, 1) == (m, d) && 1 <= k <= DaysInYear(y) by {
      MonthOfBounds(y, m, d);
      MonthOfUnique(y, 1, m, d);
    }
    assert YearOf(Ordinal(y, m, d), 1) == (y, k) by {
      YearOfUnique(1, y, k);
    }
  }

  /** An ordinal names a date within `datetime`'s range exactly when it is at most `MaxOrdinal()`. */
  lemma OrdinalInRange(n: int)
    requires n >= 1
    ensures FromOrdinal(n).0 <= MaxYear <==> n <= MaxOrdinal()
  {
    var (y, k) := YearOf(n, 1);
    if y <= MaxYear {
      DaysBeforeYearMono(y + 1, MaxYear + 1);
    } else {
      DaysBeforeYearMono(MaxYear + 1, y);
    }
  }

  /** `date.weekday()`: Monday is 0 and 0001-01-01 was a Monday. */
  function Weekday(y: int, m: int, d: int): (w: int)
    requires y >= 1 && 1 <= m <= 12
    ensures 0 <= w < 7
  {
    (Ordinal(y, m, d) + 6) % 7
  }

  /** 0001-01-01, the first day `datetime` knows, was a Monday. */
  lemma WeekdayOfEpoch()
    ensures Weekday(1, 1, 1) == 0
  {
  }

  /** Whatever the month and year boundaries, the next day is the next weekday. */
  lemma WeekdayOfNextDay(n: int)
    requires n >= 1
    ensures var a, b := FromOrdinal(n), FromOrdinal(n + 1);
      Weekday(b.0, b.1, b.2) == (Weekday(a.0, a.1, a.2) + 1) % 7
  {
    var a, b := FromOrdinal(n), FromOrdinal(n + 1);
    assert Weekday(a.0, a.1, a.2) == (n + 6) % 7;
    assert Weekday(b.0, b.1, b.2) == (n + 7) % 7;
    NextResidue(n + 6);
  }

  lemma NextResidue(x: int)
    ensures (x + 1) % 7 == (x % 7 + 1) % 7
  {
    var q, w := x / 7, x % 7;
    assert x == 7 * q + w;
    if w < 6 {
      assert x + 1 == 7 * q + (w + 1);
    } else {
      assert x + 1 == 7 * (q + 1);
    }
  }

  // ---------------------------------------------------------------------
  // minute arithmetic (subtracting a whole-minute `timedelta`)

  /** Minutes from 0001-01-01 00:00 to the wall-clock minute of `t`. */
  function MinuteIndex(t: DateTime): (n: int)
    requires Valid(t)
    ensures 0 <= n < MaxOrdinal() * MinutesPerDay
  {
    var o := Ordinal(t.year, t.month, t.day);
    FromOrdinalOrdinal(t.year, t.month, t.day);
    OrdinalInRange(o);
    (o - 1) * MinutesPerDay + t.hour * 60 + t.minute
  }

  /** The `datetime` whose wall-clock minute is number `n`, keeping the seconds `s`. */
  function FromMinuteIndex(n: int, s: int): (t: DateTime)
    requires 0 <= n < MaxOrdinal() * MinutesPerDay && 0 <= s < 60
    ensures Valid(t) && t.second == s
    ensures MinuteIndex(t) == n
  {
    var days := n / MinutesPerDay;
    var rest := n % MinutesPerDay;
    var (y, m, d) := FromOrdinal(days + 1);
    OrdinalInRange(days + 1);
    DateTime(y, m, d, rest / 60, rest % 60, s)
  }

  /**
   * `t - timedelta(minutes=delta)`: the shifted `datetime`, or None where
   * Python raises OverflowError because the result leaves years 1..9999.
   */
  function SubtractMinutes(t: DateTime, delta: int): (r: Option<DateTime>)
    requires Valid(t)
    ensures r.Some? ==> Valid(r.value) && r.value.second == t.second
    ensures r.Some? ==> MinuteIndex(r.value) == MinuteIndex(t) - delta
    ensures r.None? <==> !(0 <= MinuteIndex(t) - delta < MaxOrdinal() * MinutesPerDay)
  {
    var n := MinuteIndex(t) - delta;
    if 0 <= n < MaxOrdinal() * MinutesPerDay then Some(FromMinuteIndex(n, t.second)) else None
  }

  lemma DivideDay(q: int, x: int)
    requires 0 <= x < MinutesPerDay
    ensures (q * MinutesPerDay + x) / MinutesPerDay == q
    ensures (q * MinutesPerDay + x) % MinutesPerDay == x
  {
  }

  /** Two valid `datetime`s with the same minute index and seconds are the same value. */
  lemma MinuteIndexInjective(a: DateTime, b: DateTime)
    requires Valid(a) && Valid(b) && a.second == b.second
    requires MinuteIndex(a) == MinuteIndex(b)
    ensures a == b
  {
    var oa := Ordinal(a.year, a.month, a.day);
    var ob := Ordinal(b.year, b.month, b.day);
    var xa := a.hour * 60 + a.minute;
    var xb := b.hour * 60 + b.minute;
    var n := MinuteIndex(a);
    assert n == (oa - 1) * MinutesPerDay + xa;
    assert n == (ob - 1) * MinutesPerDay + xb;
    DivideDay(oa - 1, xa);
    DivideDay(ob - 1, xb);
    assert oa == ob && xa == xb;
    assert a.hour == b.hour by {
      assert xa / 60 == a.hour && xb / 60 == b.hour;
    }
    FromOrdinalOrdinal(a.year, a.month, a.day);
    FromOrdinalOrdinal(b.year, b.month, b.day);
  }

  /** Subtracting zero minutes gives the same `datetime` back. */
  lemma SubtractZero(t: DateTime)
    requires Valid(t)
    ensures SubtractMinutes(t, 0) == Some(t)
  {
    MinuteIndexInjective(SubtractMinutes(t, 0).value, t);
  }

}
