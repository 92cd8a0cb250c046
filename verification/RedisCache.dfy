/** The lockout functions of core/platform/cache/redis_cache.c in their own form: a
    connection whose commands change the server's store and let its clock move, and
    calendar buffers of 512 days filled in place. Each method is proved to be the
    function of the same name in `BreakerLockout`. */
module RedisCache {
  import opened Wrappers
  import opened CivilDate
  import opened DecimalText
  import opened DateText
  import opened HolidayCalendar
  import opened MarketHours
  import opened BreakerLockout
  import LockoutRuns

  class Connection {
    var store: map<string, Entry>
    var nowMs: int

    ghost function View(): Server
      reads this
    {
      Server(store, nowMs)
    }

    method Time(io: Io) returns (epoch: Option<int>)
      modifies this`nowMs
      ensures View() == Tick(old(View()), io) && epoch == ServerTime(View(), io)
    {
      nowMs := nowMs + io.delayMs;
      epoch := if io.fate == Answered && nowMs / 1000 > 0 then Some(nowMs / 1000) else None;
    }

    /** GET; the outer None is a missing or unusable reply, the inner None a nil reply. */
    method Get(key: string, io: Io) returns (reply: Option<Option<string>>)
      modifies this`nowMs
      ensures View() == Tick(old(View()), io)
      ensures reply == if io.fate != Answered then None
                       else Some(if Alive(View(), key) then Some(store[key].value) else None)
    {
      nowMs := nowMs + io.delayMs;
      if io.fate != Answered {
        return None;
      }
      if key in store && (store[key].expiryMs.Some? ==> nowMs <= store[key].expiryMs.value) {
        return Some(Some(store[key].value));
      }
      return Some(None);
    }

    method TtlOf(key: string, io: Io) returns (ttl: Option<int>)
      modifies this`nowMs
      ensures View() == Tick(old(View()), io)
      ensures ttl == if io.fate == Answered then Some(Ttl(View(), key)) else None
    {
      nowMs := nowMs + io.delayMs;
      ttl := if io.fate == Answered then Some(Ttl(Server(store, nowMs), key)) else None;
    }

    method LoadCalendar(year: int, days: array<int>, io: LoadIo) returns (count: Option<nat>)
      requires days.Length == MAX_HOLIDAYS
      modifies this`nowMs, days
      ensures View() == BreakerLockout.LoadCalendar(old(View()), year, io).0
      ensures count.Some? <==> BreakerLockout.LoadCalendar(old(View()), year, io).1.Some?
      ensures count.Some? ==>
                count.value <= MAX_HOLIDAYS &&
                Some(days[..count.value]) == BreakerLockout.LoadCalendar(old(View()), year, io).1
    {
      hide Calendar, Ttl, CalendarKey;
      var key := CalendarKey(year);
      var reply := Get(key, io.get);
      if reply.None? || reply.value.None? {
        return None;
      }
      var ok, used := ReadCalendar(reply.value.value, year, days);
      if !ok {
        return None;
      }
      var ttl := TtlOf(key, io.ttl);
      if ttl.None? || ttl.value <= 0 {
        return None;
      }
      return Some(used);
    }

    method SetBreakerLockout(scope: string, now: int, expires: int, io: SetIo) returns (status: Err)
      modifies this
      ensures (View(), status) == SetLockout(old(View()), scope, now, expires, io)
    {
      hide LockoutKey, Digits;
      if expires <= now {
        return ErrInvalidArg;
      }
      if KeyStatus(scope) != NoError {
        return KeyStatus(scope);
      }
      var serverNow := Time(io.time);
      if serverNow.None? {
        return ErrIo;
      }
      if expires <= serverNow.value {
        return ErrInvalidArg;
      }
      nowMs := nowMs + io.write.delayMs;
      if Runs(io.write) {
        store := store[LockoutKey(scope) := Entry(Digits(expires), Some(expires * 1000))];
      }
      return if io.write.fate == Answered then NoError else ErrIo;
    }

    method SetBreakerLockoutNextSession(scope: string, now: int, io: NextIo)
        returns (status: Err, expiresAt: Option<int>)
      modifies this
      ensures (View(), status, expiresAt) == SetNextSession(old(View()), scope, now, io)
    {
      hide BreakerLockout.LoadCalendar, ChooseExpiry, SetLockout, EndOfYear;
      var serverNow := Time(io.time);
      if serverNow.None? {
        return ErrIo, None;
      }
      if now < serverNow.value - 5 || now > serverNow.value + 5 {
        return ErrInvalidArg, None;
      }
      var expiry := NextExpiry(now, io.first, io.second);
      if expiry.None? || expiry.value <= serverNow.value {
        return ErrIo, None;
      }
      status := SetBreakerLockout(scope, now, expiry.value, io.lock);
      expiresAt := if status == NoError then expiry else None;
    }

    /** The calendar part of the function above: load this year, and next year if needed. */
    method NextExpiry(now: int, first: LoadIo, second: LoadIo) returns (expiry: Option<int>)
      modifies this`nowMs
      ensures (View(), expiry) == ChooseExpiry(old(View()), now, first, second)
    {
      hide BreakerLockout.LoadCalendar, NextSession, EndOfYear, DaysBeforeYear, InYear, CivilFromDays;
      var year := EventYear(now);
      var holidays := new int[MAX_HOLIDAYS];
      var count := LoadCalendar(year, holidays, first);
      if count.None? {
        return None;
      }
      ghost var days := holidays[..count.value];
      LockoutRuns.LoadedCalendar(old(View()), year, first);
      var epoch := NextTradingSessionStartHolidayAware(now, holidays[..count.value], EndOfYear(year));
      if epoch != INSUFFICIENT {
        return Some(epoch);
      }
      var nextHolidays := new int[MAX_HOLIDAYS];
      ghost var middle := View();
      var nextCount := LoadCalendar(year + 1, nextHolidays, second);
      if nextCount.None? || count.value + nextCount.value > MAX_HOLIDAYS {
        return None;
      }
      ghost var more := nextHolidays[..nextCount.value];
      LockoutRuns.LoadedCalendar(middle, year + 1, second);
      forall i | 0 <= i < nextCount.value {
        holidays[count.value + i] := nextHolidays[i];
      }
      var total := count.value + nextCount.value;
      assert holidays[..total] == days + more;
      LockoutRuns.MergedCalendar(days, more, year);
      epoch := NextTradingSessionStartHolidayAware(now, holidays[..total], EndOfYear(year + 1));
      return if epoch == INSUFFICIENT then None else Some(epoch);
    }

    method IsBreakerLocked(scope: string, io: CheckIo) returns (reply: CheckReply)
      modifies this`nowMs
      ensures (View(), reply) == Check(old(View()), scope, io)
    {
      hide LockoutKey, ParseEpoch, Ttl;
      if KeyStatus(scope) != NoError {
        return CheckReply(KeyStatus(scope), None, None);
      }
      var key := LockoutKey(scope);
      var text := Get(key, io.get);
      if text.None? {
        return CheckReply(ErrIo, None, None);
      }
      if text.value.None? {
        return CheckReply(NoError, Some(false), None);
      }
      var expiry := ParseEpoch(text.value.value);
      if expiry.None? {
        return CheckReply(ErrIo, Some(true), None);
      }
      var serverNow := Time(io.time);
      if serverNow.None? {
        return CheckReply(ErrIo, Some(true), None);
      }
      var ttl := TtlOf(key, io.ttl);
      var left := expiry.value - serverNow.value;
      if ttl.None? || ttl.value <= 0 || left <= 0 || left < ttl.value || left > ttl.value + 1 {
        return CheckReply(ErrIo, Some(true), None);
      }
      return CheckReply(NoError, Some(true), expiry);
    }

    method ClearBreakerLockout(scope: string, io: Io) returns (status: Err)
      modifies this
      ensures (View(), status) == Clear(old(View()), scope, io)
    {
      if KeyStatus(scope) != NoError {
        return KeyStatus(scope);
      }
      nowMs := nowMs + io.delayMs;
      if Runs(io) {
        store := store - {LockoutKey(scope)};
      }
      return if io.fate == Answered || io.fate == Refused then NoError else ErrIo;
    }
  }
}
