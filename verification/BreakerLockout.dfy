/** The circuit-breaker lockout (core/platform/cache/redis_cache.c) over a Redis server.

    The server is a keyed store with absolute expiry and a millisecond clock. Every
    command the client sends has an outcome chosen by the environment: it is answered,
    refused with an error reply, or its reply is lost, before or after the server ran it.
    No other client writes a lockout key; other keys may change at any time. */
module BreakerLockout {
  import opened Wrappers
  import opened CivilDate
  import opened DecimalText
  import opened DateText
  import opened HolidayCalendar
  import opened MarketHours

  const KEY_CAP: nat := 96
  const INT64_MAX: int := 0x7fff_ffff_ffff_ffff

  datatype Err = NoError | ErrInvalidArg | ErrRange | ErrIo

  // ----- the server -------------------------------------------------------

  datatype Entry = Entry(value: string, expiryMs: Option<int>)
  datatype Server = Server(store: map<string, Entry>, nowMs: int)

  datatype Fate = Answered | Refused | LostBefore | LostAfter
  /** Time that passes before a command reaches the server, and what becomes of it. */
  datatype Io = Io(delayMs: nat, fate: Fate)

  function Tick(s: Server, io: Io): Server {
    s.(nowMs := s.nowMs + io.delayMs)
  }

  predicate Runs(io: Io) {
    io.fate == Answered || io.fate == LostAfter
  }

  predicate Alive(s: Server, key: string) {
    key in s.store && (s.store[key].expiryMs.Some? ==> s.nowMs <= s.store[key].expiryMs.value)
  }

  /** TTL in whole seconds, rounded to nearest; -1 without expiry, -2 without key. */
  function Ttl(s: Server, key: string): int {
    if !Alive(s, key) then -2
    else if s.store[key].expiryMs.None? then -1
    else (s.store[key].expiryMs.value - s.nowMs + 500) / 1000
  }

  // ----- reading and writing epochs as text -------------------------------

  /** `strtoll` in base 10 followed by the source's checks: the whole text, positive,
      within int64. */
  function ParseEpoch(text: string): (r: Option<int>) {
    var t := SkipSpace(text);
    var digits := if StartsWith(t, '+') || StartsWith(t, '-') then t[1..] else t;
    if digits == "" || !AllDigits(digits) || StartsWith(t, '-') then None
    else if 0 < Decimal(digits) <= INT64_MAX then Some(Decimal(digits))
    else None
  }

  lemma EpochRoundTrip(n: int)
    requires 0 < n <= INT64_MAX
    ensures ParseEpoch(Digits(n)) == Some(n)
  {
    hide Decimal;
    DigitsDecimal(n);
    assert IsDigit(Digits(n)[0]);
    assert SkipSpace(Digits(n)) == Digits(n);
  }

  predicate EpochSpelling(text: string, space: string, sign: string, digits: string) {
    text == space + (sign + digits) && AllSpace(space) && (sign == "" || sign == "+") &&
    digits != "" && AllDigits(digits)
  }

  lemma SpellingIsRead(text: string, space: string, sign: string, digits: string)
    requires EpochSpelling(text, space, sign, digits)
    ensures ParseEpoch(text) == if 0 < Decimal(digits) <= INT64_MAX then Some(Decimal(digits)) else None
  {
    hide Decimal, SkipSpace;
    var t := sign + digits;
    assert !IsSpace(t[0]);
    SkipSpaceExact(space, t);
    if sign == "+" {
      assert t[1..] == digits;
    } else {
      assert t == digits && IsDigit(t[0]);
    }
  }

  /** A text is read as n exactly when it is spaces, an optional plus sign and digits that
      denote n, positive and within int64. */
  lemma EpochTextExactly(text: string, n: int)
    ensures ParseEpoch(text) == Some(n) <==>
            0 < n <= INT64_MAX &&
            exists space, sign, digits :: EpochSpelling(text, space, sign, digits) && Decimal(digits) == n
  {
    hide Decimal, SkipSpace;
    if ParseEpoch(text) == Some(n) {
      var t := SkipSpace(text);
      var space := SkippedPrefix(text);
      var sign := if StartsWith(t, '+') then "+" else "";
      var digits := if StartsWith(t, '+') then t[1..] else t;
      assert t == sign + digits;
      assert EpochSpelling(text, space, sign, digits) && Decimal(digits) == n;
    } else if 0 < n <= INT64_MAX {
      forall space, sign, digits | EpochSpelling(text, space, sign, digits)
        ensures Decimal(digits) != n
      {
        SpellingIsRead(text, space, sign, digits);
      }
    }
  }

  /** `redis_server_time`: whole seconds, which the source wants positive. */
  function ServerTime(s: Server, io: Io): Option<int> {
    if io.fate == Answered && s.nowMs / 1000 > 0 then Some(s.nowMs / 1000) else None
  }

  // ----- keys -------------------------------------------------------------

  const LOCKOUT_PREFIX := "hard_stop:lockout:"

  function KeyStatus(scope: string): Err {
    if scope == "" then ErrInvalidArg
    else if |LOCKOUT_PREFIX + scope| >= KEY_CAP then ErrRange
    else NoError
  }

  function LockoutKey(scope: string): string {
    LOCKOUT_PREFIX + scope
  }

  function CalendarKey(year: int): string {
    "krx:holidays:" + (if year < 0 then "-" + Digits(-year) else Digits(year))
  }

  /** A scope is refused as empty, or as too long from 78 characters on. */
  lemma KeyStatusExactly(scope: string)
    ensures KeyStatus(scope) ==
            if |scope| == 0 then ErrInvalidArg else if |scope| >= 78 then ErrRange else NoError
  {
    assert |LOCKOUT_PREFIX| == 18;
  }

  /** How the keys are spelled. */
  lemma KeysSpelled()
    ensures LockoutKey("desk") == "hard_stop:lockout:desk" && CalendarKey(2026) == "krx:holidays:2026"
    ensures CalendarKey(-1) == "krx:holidays:-1"
  {
    assert Digits(2026) == Digits(202) + "6" && Digits(202) == Digits(20) + "2" && Digits(20) == Digits(2) + "0";
  }

  lemma KeysDiffer(a: string, b: string)
    ensures LockoutKey(a) == LockoutKey(b) ==> a == b
  {
    assert LockoutKey(a)[|LOCKOUT_PREFIX|..] == a;
    assert LockoutKey(b)[|LOCKOUT_PREFIX|..] == b;
  }

  // ----- the four operations ----------------------------------------------

  datatype SetIo = SetIo(time: Io, write: Io)

  function WithLock(s: Server, scope: string, expires: int): Server
    requires expires > 0
  {
    s.(store := s.store[LockoutKey(scope) := Entry(Digits(expires), Some(expires * 1000))])
  }

  /** Everything before the SET command. */
  function SetGuard(s: Server, scope: string, now: int, expires: int, time: Io): Err {
    if expires <= now then ErrInvalidArg
    else if KeyStatus(scope) != NoError then KeyStatus(scope)
    else
      var serverNow := ServerTime(Tick(s, time), time);
      if serverNow.None? then ErrIo
      else if expires <= serverNow.value then ErrInvalidArg
      else NoError
  }

  function SetLockout(s: Server, scope: string, now: int, expires: int, io: SetIo): (Server, Err) {
    if expires <= now || KeyStatus(scope) != NoError then (s, SetGuard(s, scope, now, expires, io.time))
    else
      var s1 := Tick(s, io.time);
      if SetGuard(s, scope, now, expires, io.time) != NoError then (s1, SetGuard(s, scope, now, expires, io.time))
      else
        var s2 := Tick(s1, io.write);
        (if Runs(io.write) then WithLock(s2, scope, expires) else s2,
         if io.write.fate == Answered then NoError else ErrIo)
  }

  datatype LoadIo = LoadIo(get: Io, ttl: Io)

  function LoadCalendar(s: Server, year: int, io: LoadIo): (Server, Option<seq<int>>) {
    var s1 := Tick(s, io.get);
    if io.get.fate != Answered || !Alive(s1, CalendarKey(year)) then (s1, None)
    else
      var days := Calendar(s1.store[CalendarKey(year)].value, year);
      if days.None? then (s1, None)
      else
        var s2 := Tick(s1, io.ttl);
        (s2, if io.ttl.fate == Answered && Ttl(s2, CalendarKey(year)) > 0 then days else None)
  }

  datatype NextIo = NextIo(time: Io, first: LoadIo, second: LoadIo, lock: SetIo)

  function EndOfYear(year: int): int {
    DaysFromCivil(year, 12, 31)
  }

  function EventYear(now: int): int {
    CivilFromDays(TruncDiv(now + KST_OFFSET, SECONDS_PER_DAY)).year
  }

  /** The calendar reads of `SetNextSession` and the expiry they lead to. */
  function ChooseExpiry(s: Server, now: int, first: LoadIo, second: LoadIo): (Server, Option<int>) {
    var year := EventYear(now);
    var (s1, days) := LoadCalendar(s, year, first);
    if days.None? then (s1, None)
    else
      var expiry := NextSession(now, days.value, EndOfYear(year));
      if expiry != INSUFFICIENT then (s1, Some(expiry))
      else
        var (s2, more) := LoadCalendar(s1, year + 1, second);
        if more.None? || |days.value| + |more.value| > MAX_HOLIDAYS then (s2, None)
        else
          var expiry2 := NextSession(now, days.value + more.value, EndOfYear(year + 1));
          (s2, if expiry2 == INSUFFICIENT then None else Some(expiry2))
  }

  function SetNextSession(s: Server, scope: string, now: int, io: NextIo): (Server, Err, Option<int>) {
    var s1 := Tick(s, io.time);
    var serverNow := ServerTime(s1, io.time);
    if serverNow.None? then (s1, ErrIo, None)
    else if now < serverNow.value - 5 || now > serverNow.value + 5 then (s1, ErrInvalidArg, None)
    else
      var (s2, expiry) := ChooseExpiry(s1, now, io.first, io.second);
      if expiry.None? || expiry.value <= serverNow.value then (s2, ErrIo, None)
      else
        var (s3, status) := SetLockout(s2, scope, now, expiry.value, io.lock);
        (s3, status, if status == NoError then expiry else None)
  }

  datatype CheckIo = CheckIo(get: Io, time: Io, ttl: Io)
  /** `locked` is None when the call leaves the caller's flag as it was. */
  datatype CheckReply = CheckReply(status: Err, locked: Option<bool>, expires: Option<int>)

  function Check(s: Server, scope: string, io: CheckIo): (Server, CheckReply) {
    if KeyStatus(scope) != NoError then (s, CheckReply(KeyStatus(scope), None, None))
    else
      var key := LockoutKey(scope);
      var s1 := Tick(s, io.get);
      if io.get.fate != Answered then (s1, CheckReply(ErrIo, None, None))
      else if !Alive(s1, key) then (s1, CheckReply(NoError, Some(false), None))
      else
        var expiry := ParseEpoch(s1.store[key].value);
        if expiry.None? then (s1, CheckReply(ErrIo, Some(true), None))
        else
          var s2 := Tick(s1, io.time);
          var serverNow := ServerTime(s2, io.time);
          if serverNow.None? then (s2, CheckReply(ErrIo, Some(true), None))
          else
            var s3 := Tick(s2, io.ttl);
            var ttl := Ttl(s3, key);
            var left := expiry.value - serverNow.value;
            if io.ttl.fate != Answered || ttl <= 0 || left <= 0 || left < ttl || left > ttl + 1
            then (s3, CheckReply(ErrIo, Some(true), None))
            else (s3, CheckReply(NoError, Some(true), expiry))
  }

  function Clear(s: Server, scope: string, io: Io): (Server, Err) {
    if KeyStatus(scope) != NoError then (s, KeyStatus(scope))
    else
      var s1 := Tick(s, io);
      (if Runs(io) then s1.(store := s1.store - {LockoutKey(scope)}) else s1,
       if io.fate == Answered || io.fate == Refused then NoError else ErrIo)
  }
}
