/** Time values as JavaScript's Date holds them (integer milliseconds since
    1970-01-01T00:00:00Z, or NaN), the local day they fall on, and the Gregorian
    calendar view (year, month, day of month, weekday) used by the calendar.
    Local time is taken to be UTC. */
module Dates {

  const MsPerDay: int := 86_400_000

  /** The largest distance from the epoch a Date can hold (ECMAScript TimeClip). */
  const MaxTime: int := 8_640_000_000_000_000

  predicate InRange(ms: int) {
    -MaxTime <= ms <= MaxTime
  }

  datatype Time = NaN | At(ms: int)

  /** The time value of a Date object: NaN ("Invalid Date") or an instant in range. */
  type JsTime = t: Time | t.NaN? || InRange(t.ms) witness NaN

  /** new Date(n) for an integer n: out-of-range values make an Invalid Date. */
  function TimeClip(n: int): (t: JsTime)
    ensures t.At? <==> InRange(n)
    ensures t.At? ==> t.ms == n
  {
    if InRange(n) then At(n) else NaN
  }

  // ---------------------------------------------------------------------------
  // Days

  /** The number of the day (since the epoch) on which the instant falls. */
  function DayNumber(ms: int): int {
    ms / MsPerDay
  }

  /** setHours(0, 0, 0, 0) */
  function StartOfDay(ms: int): (r: int)
    ensures r <= ms < r + MsPerDay
    ensures r % MsPerDay == 0 && DayNumber(r) == DayNumber(ms)
  {
    DayNumber(ms) * MsPerDay
  }

  /** setHours(23, 59, 59, 999) */
  function EndOfDay(ms: int): (r: int)
    ensures ms <= r < ms + MsPerDay
    ensures DayNumber(r) == DayNumber(ms) && DayNumber(r + 1) == DayNumber(ms) + 1
  {
    StartOfDay(ms) + MsPerDay - 1
  }

  /** An instant lies between the start and the end of the day of `ms`
      (both inclusive) exactly when it falls on the same day. */
  lemma DayWindow(t: int, ms: int)
    ensures StartOfDay(ms) <= t <= EndOfDay(ms) <==> DayNumber(t) == DayNumber(ms)
  {
    var d := DayNumber(ms);
    assert t == DayNumber(t) * MsPerDay + t % MsPerDay;
    assert 0 <= t % MsPerDay < MsPerDay;
    if StartOfDay(ms) <= t <= EndOfDay(ms) {
      assert d * MsPerDay <= t < d * MsPerDay + MsPerDay;
      assert DayNumber(t) == d;
    }
  }

  // ---------------------------------------------------------------------------
  // The Gregorian calendar

  datatype CivilDate = CivilDate(year: int, month: int, day: int)

  predicate IsLeapYear(y: int) {
    y % 4 == 0 && (y % 100 != 0 || y % 400 == 0)
  }

  function DaysInMonth(y: int, m: int): (n: int)
    requires 1 <= m <= 12
    ensures 28 <= n <= 31
    ensures n == 31 <==> m in {1, 3, 5, 7, 8, 10, 12}
    ensures n == 29 <==> m == 2 && IsLeapYear(y)
  {
    if m == 2 then (if IsLeapYear(y) then 29 else 28)
    else if m == 4 || m == 6 || m == 9 || m == 11 then 30
    else 31
  }

  predicate IsValidCivil(c: CivilDate) {
    1 <= c.month <= 12 && 1 <= c.day <= DaysInMonth(c.year, c.month)
  }

  // Day numbers are counted through March-based years (which put the leap day
  // last) grouped in 400-year eras of 146097 days; era 0 starts on 0000-03-01,
  // day -719468.

  /** The March-based year a date falls in. */
  function MarchYear(c: CivilDate): int {
    if c.month <= 2 then c.year - 1 else c.year
  }

  /** The day of its March-based year a date is (1 March = 0). */
  function DayOfMarchYear(c: CivilDate): int
    requires 1 <= c.month <= 12
  {
    var mp := if c.month > 2 then c.month - 3 else c.month + 9;
    (153 * mp + 2) / 5 + c.day - 1
  }

  /** The day number of day `doy` of March-based year `y`. */
  function DaysFromMarchYear(y: int, doy: int): int {
    var era := y / 400;
    var yoe := y - era * 400;
    era * 146097 + yoe * 365 + yoe / 4 - yoe / 100 + doy - 719468
  }

  /** The day number of a calendar date (days since 1970-01-01). */
  function DaysFromCivil(c: CivilDate): int
    requires 1 <= c.month <= 12
  {
    DaysFromMarchYear(MarchYear(c), DayOfMarchYear(c))
  }

  /** The day of its era on which year `yoe` of the era starts. */
  function YearStart(yoe: int): int {
    yoe * 365 + yoe / 4 - yoe / 100
  }

  /** The number of days of year `yoe` of an era: 366 when the February
      that ends it (in calendar year yoe + 1) has a leap day. */
  function YearLength(yoe: int): int {
    if (yoe + 1) % 4 == 0 && ((yoe + 1) % 100 != 0 || yoe == 399) then 366 else 365
  }

  /** The position of a day inside its 400-year era: the year of the era and
      the day of that March-based year. */
  function YearAndDayOfEra(doe: int): (r: (int, int))
    requires 0 <= doe < 146097
    ensures 0 <= r.0 <= 399 && 0 <= r.1 < YearLength(r.0)
    ensures YearStart(r.0) + r.1 == doe
  {
    var cen := if doe / 36524 < 3 then doe / 36524 else 3;   // century of the era
    var doc := doe - cen * 36524;                            // day of the century
    var quad := doc / 1461;                                  // 4-year cycle of the century
    var doq := doc - quad * 1461;                            // day of the cycle
    var yr := if doq / 365 < 3 then doq / 365 else 3;        // year of the cycle
    var yoe := cen * 100 + quad * 4 + yr;
    assert yoe / 4 == cen * 25 + quad;
    assert yoe / 100 == cen;
    assert (yoe + 1) % 100 == 0 <==> quad == 24 && yr == 3;
    (yoe, doq - yr * 365)
  }

  /** The calendar date of day `doy` of March-based year `y`. */
  function MarchYearDate(y: int, doy: int): (c: CivilDate)
    requires 0 <= doy <= 365
    ensures 1 <= c.month <= 12
    ensures MarchYear(c) == y && DayOfMarchYear(c) == doy
  {
    var mp := (5 * doy + 2) / 153;                           // month, March = 0
    assert 153 * mp <= 5 * doy + 2 < 153 * mp + 153;
    var m := if mp < 10 then mp + 3 else mp - 9;
    CivilDate(if m <= 2 then y + 1 else y, m, doy - (153 * mp + 2) / 5 + 1)
  }

  /** The 400-year era a day number falls in, and the day of that era. */
  function EraOf(z: int): (e: (int, int))
    ensures 0 <= e.1 < 146097
    ensures z == e.0 * 146097 + e.1 - 719468
  {
    var z' := z + 719468;
    (z' / 146097, z' % 146097)
  }

  /** The calendar date of a day number. */
  function CivilFromDays(z: int): (c: CivilDate)
    ensures 1 <= c.month <= 12
  {
    var e := EraOf(z);
    var r := YearAndDayOfEra(e.1);
    MarchYearDate(r.0 + e.0 * 400, r.1)
  }

  /** The local calendar date of an instant (getFullYear, getMonth + 1, getDate). */
  function CivilOf(ms: int): (c: CivilDate)
    ensures 1 <= c.month <= 12
  {
    CivilFromDays(DayNumber(ms))
  }

  /** The weekday of a day number, 0 = Sunday ... 6 = Saturday (getDay);
      day 0, 1970-01-01, was a Thursday. */
  function Weekday(z: int): (w: int)
    ensures 0 <= w <= 6
  {
    (z + 4) % 7
  }

  /** Day numbers and calendar dates correspond one to one: reading a day
      number as a date and back gives the day number again. */
  lemma DaysFromCivilRoundTrip(z: int)
    ensures DaysFromCivil(CivilFromDays(z)) == z
  {
    var e := EraOf(z);
    var r := YearAndDayOfEra(e.1);
    EraSplit(r.0, e.0, r.1);
  }

  /** Each year of an era starts where the previous one ends. */
  lemma YearStartNext(yoe: int)
    requires 0 <= yoe < 399
    ensures YearStart(yoe + 1) == YearStart(yoe) + YearLength(yoe)
  {
    assert (yoe + 1) / 4 == yoe / 4 + (if (yoe + 1) % 4 == 0 then 1 else 0);
    assert (yoe + 1) / 100 == yoe / 100 + (if (yoe + 1) % 100 == 0 then 1 else 0);
  }

  /** A year of an era ends no later than any later year starts. */
  lemma YearStartMonotone(a: int, b: int)
    requires 0 <= a < b <= 399
    ensures YearStart(a) + YearLength(a) <= YearStart(b)
  {
    YearStartNext(a);
    if a + 1 < b {
      assert a / 4 <= b / 4 && b / 100 <= a / 100 + 4;
    }
  }

  /** The last year of an era ends with the era. */
  lemma EraEnd(yoe: int)
    requires 0 <= yoe <= 399
    ensures YearStart(yoe) + YearLength(yoe) <= 146097
  {
    if yoe < 399 {
      YearStartMonotone(yoe, 399);
    }
  }

  /** A day of an era has only one year of the era and day of that year. */
  lemma YearOfEraUnique(a: int, da: int, b: int, db: int)
    requires 0 <= a <= 399 && 0 <= da < YearLength(a)
    requires 0 <= b <= 399 && 0 <= db < YearLength(b)
    requires YearStart(a) + da == YearStart(b) + db
    ensures a == b && da == db
  {
    if a < b {
      YearStartMonotone(a, b);
    } else if b < a {
      YearStartMonotone(b, a);
    }
  }

  /** Day `doy` of year `yoe` of era `era`. */
  lemma EraSplit(yoe: int, era: int, doy: int)
    requires 0 <= yoe <= 399
    ensures DaysFromMarchYear(yoe + era * 400, doy)
         == era * 146097 + (yoe * 365 + yoe / 4 - yoe / 100 + doy) - 719468
  {
    var y := yoe + era * 400;
    assert y / 400 == era;
    assert y - era * 400 == yoe;
  }

  /** Whether the calendar year that ends year `yoe` of an era is a leap year. */
  lemma LeapYearOfEra(era: int, yoe: int)
    requires 0 <= yoe <= 399
    ensures IsLeapYear(era * 400 + yoe + 1) <==> YearLength(yoe) == 366
  {
    var k := yoe + 1;
    EraYearMods(era, k);
    assert k % 400 == 0 <==> yoe == 399;
  }

  lemma EraYearMods(era: int, k: int)
    ensures (era * 400 + k) % 4 == k % 4
    ensures (era * 400 + k) % 100 == k % 100
    ensures (era * 400 + k) % 400 == k % 400
  {
    ModOfShift(era * 100, k, 4);
    ModOfShift(era * 4, k, 100);
    ModOfShift(era, k, 400);
  }

  /** Adding a multiple of d does not change the remainder modulo d. */
  lemma ModOfShift(x: int, k: int, d: int)
    requires d > 0
    ensures (x * d + k) % d == k % d
  {
    var n := x * d + k;
    var q, r := k / d, k % d;
    assert n == (x + q) * d + r;
    ModUnique(n, x + q, r, d);
  }

  /** The remainder is the only value in [0, d) that completes a multiple of d to n. */
  lemma ModUnique(n: int, a: int, r: int, d: int)
    requires d > 0 && n == a * d + r && 0 <= r < d
    ensures n % d == r
  {
    var q := n / d;
    assert n == q * d + n % d;
    if q < a {
      assert (a - q) * d == a * d - q * d;
      MulAtLeast(a - q, d);
      assert false;
    } else if q > a {
      assert (q - a) * d == q * d - a * d;
      MulAtLeast(q - a, d);
      assert false;
    }
  }

  lemma MulAtLeast(k: int, d: int)
    requires k >= 1 && d > 0
    ensures k * d >= d
  {
    assert k * d == (k - 1) * d + d;
  }

  /** A valid date is a day of its March-based year (the last day, 365, only
      for 29 February) and is the date of that day. */
  lemma MarchYearDateOf(c: CivilDate)
    requires IsValidCivil(c)
    ensures 0 <= DayOfMarchYear(c) <= 365
    ensures DayOfMarchYear(c) == 365 ==> c.month == 2 && IsLeapYear(c.year)
    ensures MarchYearDate(MarchYear(c), DayOfMarchYear(c)) == c
  {
  }

  /** The date of a day of a March-based year is a valid date. */
  lemma MarchYearDateValid(y: int, doy: int)
    requires 0 <= doy <= 365
    requires doy == 365 ==> IsLeapYear(y + 1)
    ensures IsValidCivil(MarchYearDate(y, doy))
  {
  }

  /** Every day number names a valid calendar date. */
  lemma CivilFromDaysValid(z: int)
    ensures IsValidCivil(CivilFromDays(z))
  {
    var e := EraOf(z);
    var r := YearAndDayOfEra(e.1);
    LeapYearOfEra(e.0, r.0);
    assert r.0 + e.0 * 400 + 1 == e.0 * 400 + r.0 + 1;
    MarchYearDateValid(r.0 + e.0 * 400, r.1);
  }

  /** Every valid calendar date is the date of its day number. */
  lemma CivilFromDaysOfCivil(c: CivilDate)
    requires IsValidCivil(c)
    ensures CivilFromDays(DaysFromCivil(c)) == c
  {
    var y := MarchYear(c);
    var doy := DayOfMarchYear(c);
    MarchYearDateOf(c);
    MarchDayInEra(y, doy);
    var era := y / 400;
    var yoe := y - era * 400;
    var doe := YearStart(yoe) + doy;
    var r := YearAndDayOfEra(doe);
    YearOfEraUnique(r.0, r.1, yoe, doy);
    CivilFromEraDay(era, doe);
    assert r.0 + era * 400 == y;
  }

  /** The date of a day number given by its era and its day of the era. */
  lemma CivilFromEraDay(era: int, doe: int)
    requires 0 <= doe < 146097
    ensures CivilFromDays(era * 146097 + doe - 719468)
         == MarchYearDate(YearAndDayOfEra(doe).0 + era * 400, YearAndDayOfEra(doe).1)
  {
    EraOfSplit(era, doe);
  }

  /** A day of a March-based year is a day of the year's era, at the year's
      start within the era plus the day. */
  lemma MarchDayInEra(y: int, doy: int)
    requires 0 <= doy <= 365 && (doy == 365 ==> IsLeapYear(y + 1))
    ensures var era := y / 400; var yoe := y - era * 400;
      0 <= yoe <= 399 && doy < YearLength(yoe) && 0 <= YearStart(yoe) + doy < 146097
      && DaysFromMarchYear(y, doy) == era * 146097 + (YearStart(yoe) + doy) - 719468
  {
    var era := y / 400;
    var yoe := y - era * 400;
    LeapYearOfEra(era, yoe);
    assert era * 400 + yoe + 1 == y + 1;
    EraEnd(yoe);
  }

  /** A day number given by its era and its day of the era splits back into both. */
  lemma EraOfSplit(era: int, doe: int)
    requires 0 <= doe < 146097
    ensures EraOf(era * 146097 + doe - 719468) == (era, doe)
  {
    var n := era * 146097 + doe;
    ModUnique(n, era, doe, 146097);
    assert n == (n / 146097) * 146097 + doe;
    assert (n / 146097) * 146097 == era * 146097;
  }

  /** Different day numbers are different calendar dates. */
  lemma CivilFromDaysInjective(a: int, b: int)
    requires CivilFromDays(a) == CivilFromDays(b)
    ensures a == b
  {
    DaysFromCivilRoundTrip(a);
    DaysFromCivilRoundTrip(b);
  }
}
