/**
 * Local calendar days, shared by the JavaScript `Date` and Ruby `Date` views.
 *
 * A day is an integer counted from 1 January 1970 in the local time zone
 * (day 0, a Thursday); an instant is a day plus the local time of day. The
 * proleptic Gregorian calendar connects a day with its (year, month, day)
 * triple: `CivilFromDays` and `DaysFromCivil` are the standard era-based
 * conversions (400-year eras of 146097 days, years counted from 1 March).
 */
module Calendar {

  /** A local calendar day, counted from 1 January 1970. */
  type Day = int

  /** Milliseconds in one day (ONE_DAY in the reference model). */
  const MsPerDay: int := 86400000

  type TimeOfDay = t: int | 0 <= t < MsPerDay

  /** A point in time as seen on the local clock: its calendar day and the time of day. */
  datatype Instant = Instant(day: Day, timeOfDay: TimeOfDay)

  /** The `<` comparison of two `Date` values (their times in milliseconds). */
  predicate InstantLess(a: Instant, b: Instant) {
    a.day < b.day || (a.day == b.day && a.timeOfDay < b.timeOfDay)
  }

  /** Local midnight of a day: what `new Date("MM/DD/YYYY")` denotes. */
  function Midnight(d: Day): Instant {
    Instant(d, 0)
  }

  /** Gregorian leap years. */
  predicate IsLeapYear(y: int) {
    y % 4 == 0 && (y % 100 != 0 || y % 400 == 0)
  }

  function DaysInMonth(y: int, m: int): int {
    if m == 2 then (if IsLeapYear(y) then 29 else 28)
    else if m == 4 || m == 6 || m == 9 || m == 11 then 30
    else 31
  }

  /** A (year, month, day) triple; month and day count from 1. */
  datatype Civil = Civil(year: int, month: int, day: int)

  predicate ValidCivil(c: Civil) {
    1 <= c.month <= 12 && 1 <= c.day <= DaysInMonth(c.year, c.month)
  }

  /** The day number of a date, counting years from 1 March so that the leap day ends the year. */
  function DaysFromCivil(c: Civil): int {
    var y0 := if c.month <= 2 then c.year - 1 else c.year;
    var era := y0 / 400;
    var yoe := y0 % 400;
    var mp := if c.month > 2 then c.month - 3 else c.month + 9;
    var doy := (153 * mp + 2) / 5 + c.day - 1;
    var doe := yoe * 365 + yoe / 4 - yoe / 100 + doy;
    era * 146097 + doe - 719468
  }

  /** The year (0..399, from 1 March) holding day `doe` of a 400-year era. */
  function YearOfEra(doe: int): int {
    (doe - doe / 1460 + doe / 36524 - doe / 146096) / 365
  }

  /** Days of the era before year `yoe` starts. */
  function DaysBeforeYear(yoe: int): int {
    365 * yoe + yoe / 4 - yoe / 100
  }

  /** `doe` as whole centuries, four-year cycles and a remainder, with the year of era read off them. */
  lemma Decompose(doe: int) returns (c: int, b: int, s: int, t: int, a: int)
    requires 0 <= doe < 146096
    ensures 0 <= c <= 3 && 0 <= b <= 24 && 0 <= s <= 1460 && 0 <= t <= 1 && 0 <= a <= 3
    ensures b == 24 ==> s <= 1459
    ensures YearOfEra(doe) == 100 * c + 4 * b + a
    ensures doe - DaysBeforeYear(YearOfEra(doe)) == s - 365 * a
    ensures 0 <= s - t - 365 * a <= 364
    ensures t == 1 ==> s >= 1364
    ensures s == 1460 ==> t == 1
  {
    c := doe / 36524;
    var r := doe % 36524;
    b := r / 1461;
    s := r % 1461;
    t := (24 * c + b + s) / 1460;
    assert doe / 1460 == 25 * c + b + t;
    a := (s - t) / 365;
    var yoe := YearOfEra(doe);
    assert yoe == 100 * c + 4 * b + a;
    assert yoe / 4 == 25 * c + b;
    assert yoe / 100 == c;
  }

  /** The day of the year lies in 0..365, and 365 only in a leap year. */
  lemma DoyBounds(doe: int)
    requires 0 <= doe <= 146096
    ensures 0 <= YearOfEra(doe) <= 399
    ensures 0 <= doe - DaysBeforeYear(YearOfEra(doe)) <= 365
    ensures doe - DaysBeforeYear(YearOfEra(doe)) == 365 ==> IsLeapYear(YearOfEra(doe) + 1)
  {
    if doe < 146096 {
      var c, b, s, t, a := Decompose(doe);
      if s - 365 * a == 365 {
        assert a == 3 && b <= 23;
        var y := 100 * c + 4 * b + 4;
        assert y % 4 == 0 && y % 100 != 0;
      }
    } else {
      assert YearOfEra(doe) == 399;
    }
  }

  /** The month (0 = March .. 11 = February) of a day of the year. */
  function MonthIndex(doy: int): int { (5 * doy + 2) / 153 }

  /** Days of the year before month `mp` starts. */
  function DaysBeforeMonthIndex(mp: int): int { (153 * mp + 2) / 5 }

  /** The month index and day of month of a day of the year are in range for that month. */
  lemma MonthOfDayOfYear(doy: int, leap: bool)
    requires 0 <= doy <= 365
    requires doy == 365 ==> leap
    ensures 0 <= MonthIndex(doy) <= 11
    ensures var mp := MonthIndex(doy);
            var d := doy - DaysBeforeMonthIndex(mp) + 1;
            var m := if mp < 10 then mp + 3 else mp - 9;
            1 <= d && d <= (if m == 2 then (if leap then 29 else 28)
                            else if m == 4 || m == 6 || m == 9 || m == 11 then 30 else 31)
  {
  }

  /** Leap years repeat every 400 years. */
  lemma LeapYearPeriodic(y: int, k: int)
    ensures IsLeapYear(y + 400 * k) == IsLeapYear(y)
  {
    Mod4Shift(y, 100 * k);
    Mod100Shift(y, 4 * k);
    Mod400Shift(y, k);
  }

  /** Adding a multiple of 4 leaves the remainder by 4 unchanged. */
  lemma Mod4Shift(y: int, j: int)
    ensures (y + 4 * j) % 4 == y % 4
  {
    assert y + 4 * j == 4 * (y / 4 + j) + y % 4;
  }

  /** Adding a multiple of 100 leaves the remainder by 100 unchanged. */
  lemma Mod100Shift(y: int, j: int)
    ensures (y + 100 * j) % 100 == y % 100
  {
    assert y + 100 * j == 100 * (y / 100 + j) + y % 100;
  }

  /** Adding a multiple of 400 leaves the remainder by 400 unchanged. */
  lemma Mod400Shift(y: int, j: int)
    ensures (y + 400 * j) % 400 == y % 400
  {
    assert y + 400 * j == 400 * (y / 400 + j) + y % 400;
  }

  /** Quotient and remainder by 400 are unique. */
  lemma DivMod400(x: int, q: int, r: int)
    requires 0 <= r < 400 && x == q * 400 + r
    ensures x / 400 == q && x % 400 == r
  {
  }

  /** The date of a day number: a valid date that DaysFromCivil maps back to `z`. */
  function CivilFromDays(z: int): (c: Civil)
    ensures ValidCivil(c)
    ensures DaysFromCivil(c) == z
  {
    var z0 := z + 719468;
    var era := z0 / 146097;
    var doe := z0 % 146097;
    DoyBounds(doe);
    var yoe := YearOfEra(doe);
    var doy := doe - DaysBeforeYear(yoe);
    MonthOfDayOfYear(doy, IsLeapYear(yoe + 1));
    var mp := MonthIndex(doy);
    var d := doy - DaysBeforeMonthIndex(mp) + 1;
    var m := if mp < 10 then mp + 3 else mp - 9;
    var y := yoe + era * 400 + (if m <= 2 then 1 else 0);
    LeapYearPeriodic(yoe + 1, era);
    LeapYearPeriodic(yoe, era);
    DivMod400(yoe + era * 400, era, yoe);
    Civil(y, m, d)
  }

  /** Date#getDay / Date#wday: the weekday, 0 being Sunday. */
  function Weekday(d: Day): (w: int)
    ensures 0 <= w <= 6
  {
    (d + 4) % 7
  }

  /** Weekdays repeat every seven days. */
  lemma WeekdayPeriodic(d: Day)
    ensures Weekday(d + 7) == Weekday(d)
  {
  }

  /** Date#getDate / Date#day: the day of the month. */
  function DayOfMonth(d: Day): (n: int)
    ensures 1 <= n <= 31
  {
    CivilFromDays(d).day
  }

  /**
   * Date#setDate(n): the day with day-of-month `n` in the same month and year,
   * counted on into the following (or back into the preceding) months when `n`
   * is outside the month.
   */
  function SetDate(d: Day, n: int): (r: Day)
    ensures r == d + (n - DayOfMonth(d))
  {
    var c := CivilFromDays(d);
    DaysFromCivil(Civil(c.year, c.month, n))
  }

  /** The consecutive days `lo`, `lo + 1`, ..., `hi` (empty when `hi < lo`). */
  function DayRange(lo: Day, hi: Day): (r: seq<Day>)
    ensures |r| == if hi < lo then 0 else hi - lo + 1
    ensures forall k :: 0 <= k < |r| ==> r[k] == lo + k
    decreases hi - lo
  {
    if hi < lo then [] else DayRange(lo, hi - 1) + [hi]
  }

  /** The range holds exactly the days from `lo` to `hi`. */
  lemma DayRangeMembership(lo: Day, hi: Day, d: Day)
    ensures d in DayRange(lo, hi) <==> lo <= d <= hi
  {
    if lo <= d <= hi {
      assert DayRange(lo, hi)[d - lo] == d;
    }
  }

  lemma DayRangeMembers(lo: Day, hi: Day)
    ensures forall d :: d in DayRange(lo, hi) <==> lo <= d <= hi
  {
    forall d {
      DayRangeMembership(lo, hi, d);
    }
  }
}
