/** Calendar arithmetic of JavaScript `Date` in local time (ECMAScript
    section 21.4.1, "Time Values and Time Range"): days are counted from
    1970-01-01, months are numbered 0 to 11, the calendar is the proleptic
    Gregorian one, and local time is UTC shifted by a fixed offset. */
module CivilDate {

  const MsPerDay := 86400000
  const MsPerHour := 3600000
  const MsPerMinute := 60000
  const MsPerSecond := 1000

  /** `getDay()` of day `d`: 0 is Sunday. 1970-01-01 was a Thursday. */
  function Weekday(d: int): (w: int)
    ensures 0 <= w < 7
    ensures (d + 4 - w) % 7 == 0
  {
    (d + 4) % 7
  }

  predicate IsLeap(y: int) {
    y % 4 == 0 && (y % 100 != 0 || y % 400 == 0)
  }

  /** ECMAScript `DayFromYear(y)`: the day number of January 1st of year
      `y`, in closed form. */
  function DayFromYear(y: int): int {
    365 * (y - 1970) + (y - 1969) / 4 - (y - 1901) / 100 + (y - 1601) / 400
  }

  /** Days of month `m` (0 to 11) in a year that is or is not leap. */
  function MonthDays(m: int, leap: bool): int
    requires 0 <= m < 12
  {
    if m == 1 then (if leap then 29 else 28)
    else if m == 3 || m == 5 || m == 8 || m == 10 then 30
    else 31
  }

  /** Index of January 1970, the month day 0 falls in. */
  const EpochMonth := 12 * 1970

  /** Days of the month with index `mi`, where month `m` of year `y` has
      index `12 * y + m`. */
  function MonthDaysAt(mi: int): int {
    MonthDays(mi % 12, IsLeap(mi / 12))
  }

  /** Day number of the first day of the month with index `mi`: months are
      laid end to end from January 1970, which starts on day 0. */
  function MonthStart(mi: int): int
    decreases if mi >= EpochMonth then mi - EpochMonth else EpochMonth - mi
  {
    if mi == EpochMonth then 0
    else if mi > EpochMonth then MonthStart(mi - 1) + MonthDaysAt(mi - 1)
    else MonthStart(mi + 1) - MonthDaysAt(mi)
  }

  /** `new Date(y, m, date)` as a day number, month and date overflowing
      into neighbouring months and years as ECMAScript `MakeDay` does. */
  function MakeDay(y: int, m: int, date: int): int {
    MonthStart(12 * y + m) + date - 1
  }

  /** The year the `Date` constructor uses: two-digit years 0 to 99 mean
      1900 to 1999. */
  function JsYear(y: int): int {
    if 0 <= y <= 99 then 1900 + y else y
  }

  lemma MulMonotone(k: int, x: int, y: int)
    requires k >= 0 && x <= y
    ensures k * x <= k * y
  {
    assert k * y - k * x == k * (y - x);
  }

  /** Division is determined by the quotient's range. */
  lemma DivUnique(a: int, k: int, q: int)
    requires k > 0 && k * q <= a < k * q + k
    ensures a / k == q
  {
    var p := a / k;
    assert a == k * p + a % k && 0 <= a % k < k;
    assert k * (p + 1) == k * p + k && k * (q + 1) == k * q + k;
    if p < q {
      MulMonotone(k, p + 1, q);
    } else if p > q {
      MulMonotone(k, q + 1, p);
    }
  }

  /** `y / k` steps up by one exactly at multiples of `k`. */
  lemma DivStep(y: int, k: int)
    requires k > 0
    ensures y / k - (y - 1) / k == if y % k == 0 then 1 else 0
  {
    var q := y / k;
    if y % k == 0 {
      DivUnique(y - 1, k, q - 1);
    } else {
      DivUnique(y - 1, k, q);
    }
  }

  /** Shifting by a multiple of `k` keeps divisibility by `k`. */
  lemma ShiftDivisible(y: int, c: int, k: int)
    requires k > 0 && c % k == 0
    ensures (y - c) % k == 0 <==> y % k == 0
  {
    var q := c / k;
    assert c == k * q;
    var p := y / k;
    assert y == k * p + y % k;
    assert y - c == k * (p - q) + y % k;
    DivUnique(y - c, k, p - q);
  }

  /** The leap-day corrections of `DayFromYear` step up at leap years. */
  lemma LeapSteps(y: int)
    ensures (y - 1968) / 4 - (y - 1969) / 4 == if y % 4 == 0 then 1 else 0
    ensures (y - 1900) / 100 - (y - 1901) / 100 == if y % 100 == 0 then 1 else 0
    ensures (y - 1600) / 400 - (y - 1601) / 400 == if y % 400 == 0 then 1 else 0
  {
    DivStep(y - 1968, 4);
    ShiftDivisible(y, 1968, 4);
    DivStep(y - 1900, 100);
    ShiftDivisible(y, 1900, 100);
    DivStep(y - 1600, 400);
    ShiftDivisible(y, 1600, 400);
  }

  /** A multiple of `k * n` is a multiple of `k`. */
  lemma MultipleOfMultiple(y: int, k: int, n: int)
    requires k > 0 && n > 0 && y % (k * n) == 0
    ensures y % k == 0
  {
    var q := y / (k * n);
    assert y == (k * n) * q;
    assert y == k * (n * q);
    DivUnique(y, k, n * q);
  }

  /** A year has 366 days when leap and 365 otherwise. */
  lemma YearLength(y: int)
    ensures DayFromYear(y + 1) - DayFromYear(y) == if IsLeap(y) then 366 else 365
  {
    LeapSteps(y);
    if y % 100 == 0 {
      MultipleOfMultiple(y, 4, 25);
    }
    if y % 400 == 0 {
      MultipleOfMultiple(y, 100, 4);
    }
  }

  /** The next month index moves to the next month of the same year, or to
      January of the next year after December. */
  lemma NextMonthIndex(mi: int)
    ensures mi % 12 < 11 ==> (mi + 1) / 12 == mi / 12 && (mi + 1) % 12 == mi % 12 + 1
    ensures mi % 12 == 11 ==> (mi + 1) / 12 == mi / 12 + 1 && (mi + 1) % 12 == 0
  {
    DivUnique(mi + 1, 12, if mi % 12 < 11 then mi / 12 else mi / 12 + 1);
  }

  /** Month `mi` lasts as long as the calendar says: 28 to 31 days, 28
      only for February of a common year. */
  lemma MonthLength(mi: int)
    ensures MonthStart(mi + 1) - MonthStart(mi) == MonthDays(mi % 12, IsLeap(mi / 12))
    ensures 28 <= MonthStart(mi + 1) - MonthStart(mi) <= 31
    ensures MonthStart(mi + 1) - MonthStart(mi) == 28 <==> mi % 12 == 1 && !IsLeap(mi / 12)
  {
  }

  /** Every month lasts at least 28 days. */
  lemma MonthGrowth(mi: int)
    ensures MonthStart(mi) + 28 <= MonthStart(mi + 1)
  {
    MonthLength(mi);
  }

  /** Month starts increase with the month index. */
  lemma {:induction false} MonthStartMonotone(a: int, b: int)
    requires a <= b
    ensures MonthStart(a) + 28 * (b - a) <= MonthStart(b)
    decreases b - a
  {
    if a < b {
      MonthStartMonotone(a, b - 1);
      MonthGrowth(b - 1);
    }
  }

  /** A later month starts no earlier than the end of an earlier one. */
  lemma MonthsOrdered(a: int, b: int)
    ensures a < b ==> MonthStart(a + 1) <= MonthStart(b)
  {
    if a < b {
      MonthStartMonotone(a + 1, b);
    }
  }

  /** Month `k` of year `y` lasts `MonthDays(k, IsLeap(y))` days. */
  lemma MonthOfYear(y: int, k: int)
    requires 0 <= k < 12
    ensures MonthStart(12 * y + k + 1) == MonthStart(12 * y + k) + MonthDays(k, IsLeap(y))
  {
    DivUnique(12 * y + k, 12, y);
    MonthLength(12 * y + k);
  }

  /** The twelve months of year `y` add up to its length. */
  lemma YearOfMonths(y: int)
    ensures MonthStart(12 * y + 12) - MonthStart(12 * y) == if IsLeap(y) then 366 else 365
  {
    MonthOfYear(y, 0); MonthOfYear(y, 1); MonthOfYear(y, 2); MonthOfYear(y, 3);
    MonthOfYear(y, 4); MonthOfYear(y, 5); MonthOfYear(y, 6); MonthOfYear(y, 7);
    MonthOfYear(y, 8); MonthOfYear(y, 9); MonthOfYear(y, 10); MonthOfYear(y, 11);
  }

  /** Months laid end to end agree with the closed form of ECMAScript: every
      year starts on `DayFromYear`. */
  lemma {:induction false} YearStartsAgree(y: int)
    ensures MonthStart(12 * y) == DayFromYear(y)
    decreases if y >= 1970 then y - 1970 else 1970 - y
  {
    if y > 1970 {
      YearStartsAgree(y - 1);
      YearOfMonths(y - 1);
      YearLength(y - 1);
    } else if y < 1970 {
      YearStartsAgree(y + 1);
      YearOfMonths(y);
      YearLength(y);
    }
  }

  /** Steps back from month `mi` to the last month that starts on or
      before day `d`. */
  function SearchDown(mi: int, d: int): (r: int)
    ensures MonthStart(r) <= d
    decreases MonthStart(mi) - d
  {
    if MonthStart(mi) <= d then mi
    else
      MonthGrowth(mi - 1);
      SearchDown(mi - 1, d)
  }

  /** Steps forward from month `mi`, which starts on or before `d`, to the
      month that contains `d`. */
  function SearchUp(mi: int, d: int): (r: int)
    requires MonthStart(mi) <= d
    ensures MonthStart(r) <= d < MonthStart(r + 1)
    decreases d - MonthStart(mi)
  {
    MonthGrowth(mi);
    if MonthStart(mi + 1) <= d then SearchUp(mi + 1, d) else mi
  }

  /** The index of the month containing day `d`. */
  function MonthIndexOf(d: int): (mi: int)
    ensures MonthStart(mi) <= d < MonthStart(mi + 1)
  {
    SearchUp(SearchDown(EpochMonth + d / 31, d), d)
  }

  /** Two intervals `[sa, sa1)` and `[sb, sb1)` that both hold `d`, where
      the later one starts no earlier than the earlier one ends, belong to
      the same index. */
  lemma SameInterval(a: int, b: int, sa: int, sa1: int, sb: int, sb1: int, d: int)
    requires a < b ==> sa1 <= sb
    requires b < a ==> sb1 <= sa
    requires sa <= d < sa1 && sb <= d < sb1
    ensures a == b
  {
  }

  /** A day lies in exactly one month. */
  lemma MonthIndexUnique(d: int, mi: int)
    requires MonthStart(mi) <= d < MonthStart(mi + 1)
    ensures MonthIndexOf(d) == mi
  {
    var r := MonthIndexOf(d);
    MonthsOrdered(r, mi);
    MonthsOrdered(mi, r);
    SameInterval(r, mi, MonthStart(r), MonthStart(r + 1), MonthStart(mi), MonthStart(mi + 1), d);
  }

  /** `getMonth()` of day `d`. */
  function MonthOf(d: int): (m: int)
    ensures 0 <= m < 12
  {
    MonthIndexOf(d) % 12
  }

  /** The local day that time value `t` (milliseconds since the epoch, UTC)
      falls on, when local time is UTC plus `offset` milliseconds. */
  function LocalDay(t: int, offset: int): int {
    (t + offset) / MsPerDay
  }

  /** Milliseconds since local midnight of time value `t`. */
  function LocalTimeOfDay(t: int, offset: int): (r: int)
    ensures 0 <= r < MsPerDay
    ensures t + offset == LocalDay(t, offset) * MsPerDay + r
  {
    (t + offset) % MsPerDay
  }

  /** The time value of local time `ms` milliseconds after the start of
      local day `day`. */
  function LocalTime(day: int, ms: int, offset: int): int {
    day * MsPerDay + ms - offset
  }

  /** A local time within a day falls on that day, at that time of day. */
  lemma LocalTimeDay(day: int, ms: int, offset: int)
    requires 0 <= ms < MsPerDay
    ensures LocalDay(LocalTime(day, ms, offset), offset) == day
    ensures LocalTimeOfDay(LocalTime(day, ms, offset), offset) == ms
  {
    DivUnique(day * MsPerDay + ms, MsPerDay, day);
  }
}
