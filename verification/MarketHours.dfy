/** The KRX trading calendar (core/src/calendar/market_hours.c): the next session start
    after an instant, skipping weekends and listed holidays. */
module MarketHours {
  import opened CivilDate
  import opened Quotients

  const SECONDS_PER_DAY: int := 86400
  const KST_OFFSET: int := 32400
  const INSUFFICIENT: int := -1

  /** C's remainder: the sign of the dividend. */
  function TruncMod(a: int, b: int): int
    requires b > 0
  {
    a - b * TruncDiv(a, b)
  }

  function FloorDiv(a: int, b: int): int
    requires b > 0
  {
    if TruncMod(a, b) != 0 && a < 0 then TruncDiv(a, b) - 1 else TruncDiv(a, b)
  }

  predicate IsWeekend(epochDay: int) {
    TruncMod(TruncMod(epochDay + 3, 7) + 7, 7) >= 5
  }

  function KstDayOf(epoch: int): int {
    FloorDiv(epoch + KST_OFFSET, SECONDS_PER_DAY)
  }

  function SessionStart(kstDay: int): int {
    kstDay * SECONDS_PER_DAY + 9 * 3600 - KST_OFFSET
  }

  lemma FloorDivIsFloor(a: int, b: int)
    requires b > 0
    ensures FloorDiv(a, b) == a / b
  {
    if a < 0 {
      var q, r := (-a) / b, (-a) % b;
      assert -a == b * q + r;
      QuotientUnique(a, b, if r == 0 then -q else -q - 1, if r == 0 then 0 else b - r);
    }
  }

  /** 1970-01-01 was a Thursday: weekday 3 counted from Monday. */
  lemma WeekendIsSaturdayOrSunday(epochDay: int)
    ensures IsWeekend(epochDay) <==> (epochDay + 3) % 7 >= 5
  {
  }

  lemma KstDayBounds(epoch: int)
    ensures var start := KstDayOf(epoch) * SECONDS_PER_DAY;
            start <= epoch + KST_OFFSET < start + SECONDS_PER_DAY
  {
    FloorDivIsFloor(epoch + KST_OFFSET, SECONDS_PER_DAY);
  }

  // ----- reference: search the covered days in order ----------------------

  ghost predicate Sorted(days: seq<int>) {
    forall i, j :: 0 <= i < j < |days| ==> days[i] <= days[j]
  }

  predicate IsTradingDay(day: int, holidays: seq<int>) {
    (day + 3) % 7 < 5 && day !in holidays
  }

  /** Start of the first trading day in day..maxDay, or INSUFFICIENT. */
  function FirstSession(day: int, holidays: seq<int>, maxDay: int): (r: int)
    decreases maxDay - day
  {
    if day > maxDay then INSUFFICIENT
    else if IsTradingDay(day, holidays) then SessionStart(day)
    else FirstSession(day + 1, holidays, maxDay)
  }

  function NextSession(fromEpoch: int, holidays: seq<int>, maxDay: int): (r: int) {
    FirstSession(KstDayOf(fromEpoch) + 1, holidays, maxDay)
  }

  /** `day` is the least trading day after `after`. */
  ghost predicate IsNextTradingDay(day: int, after: int, holidays: seq<int>) {
    after < day && IsTradingDay(day, holidays) && forall d :: after < d < day ==> !IsTradingDay(d, holidays)
  }

  lemma {:induction false} FirstSessionIsLeast(day: int, holidays: seq<int>, maxDay: int)
    ensures var r := FirstSession(day, holidays, maxDay);
            if r == INSUFFICIENT then forall d :: day <= d <= maxDay ==> !IsTradingDay(d, holidays)
            else IsNextTradingDay(r / SECONDS_PER_DAY, day - 1, holidays) &&
                 r == SECONDS_PER_DAY * (r / SECONDS_PER_DAY) && r / SECONDS_PER_DAY <= maxDay
    decreases maxDay - day
  {
    hide IsTradingDay;
    if day <= maxDay {
      if IsTradingDay(day, holidays) {
        assert SessionStart(day) == SECONDS_PER_DAY * day;
      } else {
        FirstSessionIsLeast(day + 1, holidays, maxDay);
      }
    }
  }

  /** The result is the start of the least trading day after the event's KST day, or -1
      exactly when no trading day is covered; it lies more than nine hours past the event. */
  lemma NextSessionIsLeast(fromEpoch: int, holidays: seq<int>, maxDay: int)
    ensures var r, today := NextSession(fromEpoch, holidays, maxDay), KstDayOf(fromEpoch);
            && (r == INSUFFICIENT <==> forall d :: today < d <= maxDay ==> !IsTradingDay(d, holidays))
            && (r != INSUFFICIENT ==>
                  && r % SECONDS_PER_DAY == 0
                  && r / SECONDS_PER_DAY <= maxDay
                  && IsNextTradingDay(r / SECONDS_PER_DAY, today, holidays)
                  && r > fromEpoch + KST_OFFSET)
  {
    hide IsTradingDay, KstDayOf, FirstSession;
    FirstSessionIsLeast(KstDayOf(fromEpoch) + 1, holidays, maxDay);
    KstDayBounds(fromEpoch);
    var r := NextSession(fromEpoch, holidays, maxDay);
    if r != INSUFFICIENT {
      assert IsTradingDay(r / SECONDS_PER_DAY, holidays);
      assert r / SECONDS_PER_DAY >= KstDayOf(fromEpoch) + 1;
    }
  }

  lemma KstDayMonotone(a: int, b: int)
    requires a <= b
    ensures KstDayOf(a) <= KstDayOf(b)
  {
    hide KstDayOf;
    KstDayBounds(a);
    KstDayBounds(b);
  }

  /** A later event never gets an earlier session, and never gains coverage. */
  lemma NextSessionIsMonotone(a: int, b: int, holidays: seq<int>, maxDay: int)
    requires a <= b
    ensures var ra, rb := NextSession(a, holidays, maxDay), NextSession(b, holidays, maxDay);
            if ra == INSUFFICIENT then rb == INSUFFICIENT else rb == INSUFFICIENT || ra <= rb
  {
    hide IsTradingDay, KstDayOf, NextSession;
    NextSessionIsLeast(a, holidays, maxDay);
    NextSessionIsLeast(b, holidays, maxDay);
    KstDayMonotone(a, b);
    var rb := NextSession(b, holidays, maxDay);
    if rb != INSUFFICIENT {
      assert IsTradingDay(rb / SECONDS_PER_DAY, holidays);
    }
  }

  /** Adding holidays after the covered days, and coverage with them, keeps a result
      that was already found. */
  lemma {:induction false} MoreCalendar(day: int, first: seq<int>, maxDay: int, second: seq<int>, maxDay': int)
    requires maxDay <= maxDay' && forall i :: 0 <= i < |second| ==> second[i] > maxDay
    ensures FirstSession(day, first, maxDay) != INSUFFICIENT ==>
            FirstSession(day, first + second, maxDay') == FirstSession(day, first, maxDay)
    decreases maxDay - day
  {
    if day <= maxDay {
      assert day in first + second <==> day in first;
      MoreCalendar(day + 1, first, maxDay, second, maxDay');
    }
  }

  // ----- the loops of the source ------------------------------------------

  method IsHoliday(epochDay: int, holidays: seq<int>) returns (found: bool)
    requires Sorted(holidays)
    ensures found <==> epochDay in holidays
  {
    for i := 0 to |holidays|
      invariant epochDay !in holidays[..i]
    {
      if holidays[i] == epochDay {
        return true;
      }
      if holidays[i] > epochDay {
        assert forall j :: i <= j < |holidays| ==> holidays[j] > epochDay;
        break;
      }
    }
    return false;
  }

  method NextTradingSessionStart(fromEpoch: int) returns (epoch: int)
    ensures epoch % SECONDS_PER_DAY == 0 && epoch > fromEpoch + KST_OFFSET
    ensures IsNextTradingDay(epoch / SECONDS_PER_DAY, KstDayOf(fromEpoch), [])
    ensures epoch == ReferenceSession(fromEpoch)
  {
    hide KstDayOf, IsWeekend, ReferenceSession;
    var day := KstDayOf(fromEpoch) + 1;
    WeekendIsSaturdayOrSunday(day);
    while IsWeekend(day)
      invariant day > KstDayOf(fromEpoch)
      invariant forall d :: KstDayOf(fromEpoch) < d < day ==> !IsTradingDay(d, [])
      invariant IsWeekend(day) <==> (day + 3) % 7 >= 5
      decreases if (day + 3) % 7 >= 5 then 7 - (day + 3) % 7 else 0
    {
      day := day + 1;
      WeekendIsSaturdayOrSunday(day);
    }
    epoch := SessionStart(day);
    assert epoch == SECONDS_PER_DAY * day;
    KstDayBounds(fromEpoch);
    NextIsReference(fromEpoch, day);
  }

  method NextTradingSessionStartHolidayAware(fromEpoch: int, holidays: seq<int>, calendarMaxDay: int)
      returns (epoch: int)
    requires Sorted(holidays)
    ensures epoch == NextSession(fromEpoch, holidays, calendarMaxDay)
  {
    hide KstDayOf, IsWeekend;
    var day := KstDayOf(fromEpoch) + 1;
    WeekendIsSaturdayOrSunday(day);
    var holiday := IsHoliday(day, holidays);
    while IsWeekend(day) || holiday
      invariant holiday <==> day in holidays
      invariant IsWeekend(day) <==> (day + 3) % 7 >= 5
      invariant FirstSession(day, holidays, calendarMaxDay) == NextSession(fromEpoch, holidays, calendarMaxDay)
      decreases calendarMaxDay - day
    {
      if day > calendarMaxDay {
        return INSUFFICIENT;
      }
      day := day + 1;
      WeekendIsSaturdayOrSunday(day);
      holiday := IsHoliday(day, holidays);
    }
    if day > calendarMaxDay {
      return INSUFFICIENT;
    }
    return SessionStart(day);
  }

  // ----- the Python reference ---------------------------------------------

  /** The loop of `_next_session_epoch`: the first weekday from `day` on. */
  function ReferenceDay(day: int): (r: int)
    ensures day <= r && (r + 3) % 7 < 5
    decreases if (day + 3) % 7 >= 5 then 7 - (day + 3) % 7 else 0
  {
    if (day + 3) % 7 >= 5 then ReferenceDay(day + 1) else day
  }

  function ReferenceSession(fromEpoch: int): int {
    ReferenceDay((fromEpoch + 32400) / 86400 + 1) * 86400 + 9 * 3600 - 32400
  }

  lemma {:induction false} SearchFindsReference(day: int, maxDay: int)
    ensures FirstSession(day, [], maxDay) ==
            if ReferenceDay(day) <= maxDay then SessionStart(ReferenceDay(day)) else INSUFFICIENT
    decreases maxDay - day
  {
    if day <= maxDay && (day + 3) % 7 >= 5 {
      SearchFindsReference(day + 1, maxDay);
    }
  }

  lemma {:induction false} ReferenceIsNext(after: int, day: int)
    requires after < day && forall d :: after < d < day ==> !IsTradingDay(d, [])
    ensures IsNextTradingDay(ReferenceDay(day), after, [])
    decreases if (day + 3) % 7 >= 5 then 7 - (day + 3) % 7 else 0
  {
    if (day + 3) % 7 >= 5 {
      ReferenceIsNext(after, day + 1);
    }
  }

  lemma NextIsReference(fromEpoch: int, day: int)
    requires IsNextTradingDay(day, KstDayOf(fromEpoch), [])
    ensures SessionStart(day) == ReferenceSession(fromEpoch)
  {
    hide ReferenceDay, IsTradingDay;
    FloorDivIsFloor(fromEpoch + KST_OFFSET, SECONDS_PER_DAY);
    ReferenceIsNext(KstDayOf(fromEpoch), KstDayOf(fromEpoch) + 1);
  }

  /** Without holidays the C search is the Python reference, as far as the calendar covers. */
  lemma WeekendOnlyAgrees(fromEpoch: int, maxDay: int)
    ensures NextSession(fromEpoch, [], maxDay) ==
            if ReferenceSession(fromEpoch) <= maxDay * SECONDS_PER_DAY then ReferenceSession(fromEpoch)
            else INSUFFICIENT
  {
    hide FirstSession, ReferenceDay;
    FloorDivIsFloor(fromEpoch + KST_OFFSET, SECONDS_PER_DAY);
    SearchFindsReference(KstDayOf(fromEpoch) + 1, maxDay);
  }
}
