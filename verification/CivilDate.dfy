/** Calendar dates as epoch-day numbers (core/src/domain/date.c, and the copies of
    the same conversions in core/platform/cache/redis_cache.c).

    `DaysFromCivil` and `CivilFromDays` follow the C expressions, with C's truncating
    division and the 32-bit unsigned wrap-around written out. The reference they are
    compared with is plain day counting from 1970-01-01 with the Gregorian leap rule. */
module CivilDate {

  const U32: int := 0x1_0000_0000

  datatype Civil = Civil(year: int, month: int, day: int)

  // ----- the code ---------------------------------------------------------

  /** C's integer division: truncation toward zero. */
  function TruncDiv(a: int, b: int): (q: int)
    requires b > 0
  {
    if a >= 0 then a / b else -((-a) / b)
  }

  function DaysFromCivil(year: int, month: int, day: int): (epochDay: int)
    requires 1 <= month <= 12 && 1 <= day <= 31
  {
    var y := if month <= 2 then year - 1 else year;
    var era := TruncDiv(if y >= 0 then y else y - 399, 400);
    var yoe := (y - era * 400) % U32;
    var mp := (month + (if month > 2 then U32 - 3 else 9)) % U32;
    var doy := (153 * mp + 2) / 5 + day - 1;
    var doe := yoe * 365 + yoe / 4 - yoe / 100 + doy;
    era * 146097 + doe - 719468
  }

  function CivilFromDays(epochDay: int): (c: Civil)
  {
    var z := epochDay + 719468;
    var era := TruncDiv(if z >= 0 then z else z - 146096, 146097);
    CivilFromEra(era, (z - era * 146097) % U32)
  }

  /** The second half of `CivilFromDays`: day `doe` of 400-year era `era`. */
  function CivilFromEra(era: int, doe: int): (c: Civil)
  {
    var yoe := YearEstimate(doe);
    var doy := doe - EraYears(yoe);
    var mp := (5 * doy + 2) / 153;
    var day := doy - (153 * mp + 2) / 5 + 1;
    var month := (mp + (if mp < 10 then 3 else U32 - 9)) % U32;
    var y := yoe + era * 400;
    Civil(if month <= 2 then y + 1 else y, month, day)
  }

  function YearEstimate(doe: int): int {
    (doe - doe / 1460 + doe / 36524 - doe / 146096) / 365
  }

  /** Days in the first `n` years of an era that starts on 1 March. */
  function EraYears(n: int): int {
    365 * n + n / 4 - n / 100
  }

  // ----- the reference: plain day counting --------------------------------

  predicate IsLeap(year: int) {
    year % 4 == 0 && (year % 100 != 0 || year % 400 == 0)
  }

  function YearLength(year: int): int {
    if IsLeap(year) then 366 else 365
  }

  function DaysInMonth(year: int, month: int): int
    requires 1 <= month <= 12
  {
    if month == 2 then (if IsLeap(year) then 29 else 28)
    else if month in {4, 6, 9, 11} then 30
    else 31
  }

  predicate IsRealDate(c: Civil) {
    1 <= c.month <= 12 && 1 <= c.day <= DaysInMonth(c.year, c.month)
  }

  /** Days from 1970-01-01 to the first day of `year`, counted year by year. */
  function DaysBeforeYear(year: int): int
    decreases if year < 1970 then 1970 - year else year - 1970
  {
    if year == 1970 then 0
    else if year > 1970 then DaysBeforeYear(year - 1) + YearLength(year - 1)
    else DaysBeforeYear(year + 1) - YearLength(year)
  }

  function DaysBeforeMonth(year: int, month: int): int
    requires 1 <= month <= 12
  {
    if month == 1 then 0 else DaysBeforeMonth(year, month - 1) + DaysInMonth(year, month - 1)
  }

  function PlainDayNumber(year: int, month: int, day: int): int
    requires 1 <= month <= 12
  {
    DaysBeforeYear(year) + DaysBeforeMonth(year, month) + day - 1
  }

  // ----- closed forms of the counts ---------------------------------------

  lemma {:induction false} DaysBeforeYearClosed(year: int)
    ensures var p := year - 1; DaysBeforeYear(year) == 365 * p + p / 4 - p / 100 + p / 400 - 719162
    decreases if year < 1970 then 1970 - year else year - 1970
  {
    if year > 1970 {
      DaysBeforeYearClosed(year - 1);
      LeapStep(year - 1);
    } else if year < 1970 {
      DaysBeforeYearClosed(year + 1);
      LeapStep(year);
    }
  }

  /** One more year adds one more leap day exactly when that year is a leap year. */
  lemma LeapStep(y: int)
    ensures y / 4 - y / 100 + y / 400 ==
            (y - 1) / 4 - (y - 1) / 100 + (y - 1) / 400 + (if IsLeap(y) then 1 else 0)
  {
    DivStep(y, 4);
    DivStep(y, 100);
    DivStep(y, 400);
  }

  lemma DivStep(y: int, k: int)
    requires k in {4, 100, 400}
    ensures y / k == (y - 1) / k + (if y % k == 0 then 1 else 0)
  {
  }

  function MonthTable(month: int): int
    requires 1 <= month <= 12
  {
    [0, 31, 59, 90, 120, 151, 181, 212, 243, 273, 304, 334][month - 1]
  }

  lemma {:induction false} DaysBeforeMonthClosed(year: int, month: int)
    requires 1 <= month <= 12
    ensures DaysBeforeMonth(year, month) == MonthTable(month) + (if month > 2 && IsLeap(year) then 1 else 0)
  {
    if month > 1 {
      DaysBeforeMonthClosed(year, month - 1);
    }
  }

  // ----- DaysFromCivil is plain counting ----------------------------------

  lemma EraIsFloor(y: int)
    ensures TruncDiv(if y >= 0 then y else y - 399, 400) == y / 400
  {
  }

  lemma EraOfDayIsFloor(z: int)
    ensures TruncDiv(if z >= 0 then z else z - 146096, 146097) == z / 146097
  {
  }

  lemma SplitByEra(y: int)
    ensures var e, r := y / 400, y % 400;
            y / 4 == 100 * e + r / 4 && y / 100 == 4 * e + r / 100 && y == 400 * e + r && 0 <= r < 400
  {
  }

  /** Month index counted from March, as the C code gets it from a wrapping subtraction. */
  function MarchIndex(month: int): int
    requires 1 <= month <= 12
  {
    if month > 2 then month - 3 else month + 9
  }

  lemma DaysFromCivilClosed(year: int, month: int, day: int)
    requires 1 <= month <= 12 && 1 <= day <= 31
    ensures var y := if month <= 2 then year - 1 else year;
            DaysFromCivil(year, month, day) ==
            365 * y + y / 4 - y / 100 + y / 400 + (153 * MarchIndex(month) + 2) / 5 + day - 1 - 719468
  {
    var y := if month <= 2 then year - 1 else year;
    EraIsFloor(y);
    SplitByEra(y);
    assert (y - y / 400 * 400) % U32 == y % 400;
    assert (month + (if month > 2 then U32 - 3 else 9)) % U32 == MarchIndex(month);
  }

  lemma MarchTable(month: int)
    requires 1 <= month <= 12
    ensures (153 * MarchIndex(month) + 2) / 5 ==
            MonthTable(month) - (if month > 2 then 59 else -306)
  {
  }

  /** Hinnant's formula counts days, for every year, and also for day numbers
      past the end of a month (which parsing lets through). */
  lemma DaysFromCivilIsPlainCount(year: int, month: int, day: int)
    requires 1 <= month <= 12 && 1 <= day <= 31
    ensures DaysFromCivil(year, month, day) == PlainDayNumber(year, month, day)
  {
    hide DaysFromCivil;
    DaysFromCivilClosed(year, month, day);
    MarchTable(month);
    DaysBeforeYearClosed(year);
    DaysBeforeMonthClosed(year, month);
    LeapStep(year);
  }

  // ----- real dates are ordered by their day number -----------------------

  lemma {:induction false} YearStarts(y: int, y': int)
    requires y < y'
    ensures DaysBeforeYear(y) + YearLength(y) <= DaysBeforeYear(y')
    decreases y' - y
  {
    DaysBeforeYearClosed(y);
    DaysBeforeYearClosed(y + 1);
    LeapStep(y);
    if y + 1 < y' {
      YearStarts(y + 1, y');
    }
  }

  lemma DayOfYearBound(c: Civil)
    requires IsRealDate(c)
    ensures 0 <= DaysBeforeMonth(c.year, c.month) + c.day - 1 < YearLength(c.year)
  {
    DaysBeforeMonthClosed(c.year, c.month);
  }

  predicate Earlier(a: Civil, b: Civil) {
    a.year < b.year || (a.year == b.year && (a.month < b.month || (a.month == b.month && a.day < b.day)))
  }

  /** Later real dates have larger day numbers, so no two share one. */
  lemma DayNumberIsMonotone(a: Civil, b: Civil)
    requires IsRealDate(a) && IsRealDate(b) && Earlier(a, b)
    ensures DaysFromCivil(a.year, a.month, a.day) < DaysFromCivil(b.year, b.month, b.day)
  {
    hide DaysFromCivil, DaysBeforeYear, DaysBeforeMonth;
    DaysFromCivilIsPlainCount(a.year, a.month, a.day);
    DaysFromCivilIsPlainCount(b.year, b.month, b.day);
    if a.year < b.year {
      YearStarts(a.year, b.year);
      DayOfYearBound(a);
      DayOfYearBound(b);
    } else {
      DaysBeforeMonthClosed(a.year, a.month);
      DaysBeforeMonthClosed(b.year, b.month);
    }
  }

  // ----- CivilFromDays is the inverse -------------------------------------

  /** A day of the era as century, four-year group and day of that group. */
  lemma SplitEra(doe: int) returns (c: int, q: int, s: int)
    requires 0 <= doe < 146097
    ensures 0 <= c <= 3 && 0 <= q <= 24 && 0 <= s <= 1460 && doe == 36524 * c + 1461 * q + s
    ensures s == 1460 ==> q < 24 || c == 3
    ensures doe / 36524 - doe / 146096 == c
  {
    c := if doe / 36524 == 4 then 3 else doe / 36524;
    var r := doe - 36524 * c;
    q := if r / 1461 == 25 then 24 else r / 1461;
    s := r - 1461 * q;
  }

  lemma QuotientBySplit(doe: int, c: int, q: int, s: int)
    requires 0 <= c <= 3 && 0 <= q <= 24 && 0 <= s <= 1460 && doe == 36524 * c + 1461 * q + s
    ensures doe / 1460 == 25 * c + q + (if 24 * c + q + s >= 1460 then 1 else 0)
  {
    assert doe == 1460 * (25 * c + q) + (24 * c + q + s);
  }

  lemma EraYearsBySplit(c: int, q: int, y: int)
    requires 0 <= c <= 3 && 0 <= q <= 24 && 0 <= y <= 3
    ensures var n := 100 * c + 4 * q + y;
            0 <= n < 400 && EraYears(n) == 36524 * c + 1461 * q + 365 * y
    ensures y == 3 && (q < 24 || c == 3) ==> IsLeap(100 * c + 4 * q + y + 1)
  {
    var n := 100 * c + 4 * q + y;
    assert n / 4 == 25 * c + q;
    assert n / 100 == c;
  }

  /** The year-of-era estimate is exact on all 146097 days of an era. */
  lemma YearOfEraExact(doe: int)
    requires 0 <= doe < 146097
    ensures var yoe := YearEstimate(doe);
            0 <= yoe < 400 &&
            0 <= doe - EraYears(yoe) <= (if IsLeap(yoe + 1) then 365 else 364)
  {
    var c, q, s := SplitEra(doe);
    var y := if s == 1460 then 3 else s / 365;
    QuotientBySplit(doe, c, q, s);
    EraYearsBySplit(c, q, y);
    var n := 100 * c + 4 * q + y;
    var e := doe - doe / 1460 + doe / 36524 - doe / 146096;
    assert e == 365 * n + (s - 365 * y) - (if 24 * c + q + s >= 1460 then 1 else 0);
    assert YearEstimate(doe) == n;
  }

  lemma MonthFromDayOfYear(doy: int)
    requires 0 <= doy <= 365
    ensures var mp := (5 * doy + 2) / 153;
            var day := doy - (153 * mp + 2) / 5 + 1;
            0 <= mp <= 11 && day >= 1 &&
            day <= (if mp in {1, 3, 6, 8} then 30 else if mp == 11 then 29 else 31)
            && (mp == 11 && day == 29 ==> doy == 365)
  {
  }

  /** `CivilFromEra` without the unsigned wrap-around. */
  lemma CivilFromEraClosed(era: int, doe: int) returns (yoe: int, doy: int, mp: int)
    requires 0 <= doe < 146097
    ensures 0 <= yoe < 400 && doe == EraYears(yoe) + doy
    ensures 0 <= doy <= (if IsLeap(yoe + 1) then 365 else 364)
    ensures mp == (5 * doy + 2) / 153 && 0 <= mp <= 11
    ensures CivilFromEra(era, doe) ==
            Civil(if mp < 10 then yoe + era * 400 else yoe + era * 400 + 1,
                  if mp < 10 then mp + 3 else mp - 9, doy - (153 * mp + 2) / 5 + 1)
  {
    YearOfEraExact(doe);
    yoe := YearEstimate(doe);
    doy := doe - EraYears(yoe);
    mp := (5 * doy + 2) / 153;
    MonthFromDayOfYear(doy);
    assert (mp + (if mp < 10 then 3 else U32 - 9)) % U32 == (if mp < 10 then mp + 3 else mp - 9);
  }

  lemma EraOfDay(epochDay: int)
    ensures var z := epochDay + 719468;
            0 <= z % 146097 < 146097 && z == z / 146097 * 146097 + z % 146097 &&
            CivilFromDays(epochDay) == CivilFromEra(z / 146097, z % 146097)
  {
    var z := epochDay + 719468;
    EraOfDayIsFloor(z);
    assert (z - z / 146097 * 146097) % U32 == z % 146097;
  }

  /** Month and day built from a day of a March-based year, checked against the calendar. */
  lemma EraDateIsReal(y: int, doy: int, mp: int)
    requires 0 <= doy <= (if IsLeap(y + 1) then 365 else 364) && mp == (5 * doy + 2) / 153
    ensures var c := Civil(if mp < 10 then y else y + 1, if mp < 10 then mp + 3 else mp - 9,
                           doy - (153 * mp + 2) / 5 + 1);
            IsRealDate(c) && MarchIndex(c.month) == mp
  {
    MonthFromDayOfYear(doy);
  }

  /** The date computed for a day number is real and counts back to that day number. */
  lemma CivilFromDaysIsReal(epochDay: int)
    ensures var c := CivilFromDays(epochDay);
            IsRealDate(c) && DaysFromCivil(c.year, c.month, c.day) == epochDay
  {
    hide CivilFromDays, CivilFromEra, DaysFromCivil, EraYears;
    var z := epochDay + 719468;
    var era := z / 146097;
    EraOfDay(epochDay);
    var yoe, doy, mp := CivilFromEraClosed(era, z % 146097);
    LeapRepeats(yoe + 1, era);
    var y := yoe + era * 400;
    EraDateIsReal(y, doy, mp);
    var c := CivilFromDays(epochDay);
    DaysFromCivilClosed(c.year, c.month, c.day);
    EraYearCount(era, yoe);
  }

  lemma EraYearCount(era: int, yoe: int)
    requires 0 <= yoe < 400
    ensures var y := yoe + era * 400;
            365 * y + y / 4 - y / 100 + y / 400 == era * 146097 + EraYears(yoe)
  {
    var y := yoe + era * 400;
    assert y / 400 == era && y % 400 == yoe;
    SplitByEra(y);
  }

  lemma ModShift(y: int, k: int, n: int)
    requires k in {4, 100, 400}
    ensures (y + k * n) % k == y % k
  {
  }

  lemma LeapRepeats(y: int, era: int)
    ensures IsLeap(y + era * 400) == IsLeap(y)
  {
    ModShift(y, 4, 100 * era);
    ModShift(y, 100, 4 * era);
    ModShift(y, 400, era);
  }

  /** The two conversions are mutually inverse: every day number is the number of
      exactly one real date. */
  lemma CivilConversionsAreInverse(c: Civil)
    requires IsRealDate(c)
    ensures CivilFromDays(DaysFromCivil(c.year, c.month, c.day)) == c
  {
    hide CivilFromDays, DaysFromCivil;
    var back := CivilFromDays(DaysFromCivil(c.year, c.month, c.day));
    CivilFromDaysIsReal(DaysFromCivil(c.year, c.month, c.day));
    if Earlier(back, c) {
      DayNumberIsMonotone(back, c);
    } else if Earlier(c, back) {
      DayNumberIsMonotone(c, back);
    }
  }

  /** The year of a day number, read off the year starts. */
  lemma YearOfDay(epochDay: int, y: int)
    ensures CivilFromDays(epochDay).year >= y <==> epochDay >= DaysBeforeYear(y)
  {
    hide CivilFromDays, DaysFromCivil, DaysBeforeYear, DaysBeforeMonth;
    var c := CivilFromDays(epochDay);
    CivilFromDaysIsReal(epochDay);
    DaysFromCivilIsPlainCount(c.year, c.month, c.day);
    DayOfYearBound(c);
    if c.year < y {
      YearStarts(c.year, y);
    } else if c.year > y {
      YearStarts(y, c.year);
    }
  }
}
