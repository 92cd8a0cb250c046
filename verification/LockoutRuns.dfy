/** What the breaker lockout guarantees over whole runs, with every command outcome
    and every passage of time open. */
module LockoutRuns {
  import opened Wrappers
  import opened CivilDate
  import opened Quotients
  import opened DecimalText
  import opened DateText
  import opened HolidayCalendar
  import opened MarketHours
  import opened BreakerLockout

  datatype Call =
    | SetCall(scope: string, now: int, expires: int, setIo: SetIo)
    | NextCall(scope: string, now: int, nextIo: NextIo)
    | CheckCall(scope: string, checkIo: CheckIo)
    | ClearCall(scope: string, clearIo: Io)
    | OtherClient(key: string, entry: Option<Entry>, delayMs: nat)

  function Step(s: Server, c: Call): Server {
    match c
    case SetCall(scope, now, expires, io) => SetLockout(s, scope, now, expires, io).0
    case NextCall(scope, now, io) => SetNextSession(s, scope, now, io).0
    case CheckCall(scope, io) => Check(s, scope, io).0
    case ClearCall(scope, io) => Clear(s, scope, io).0
    case OtherClient(key, entry, delay) =>
      Server(if entry.Some? then s.store[key := entry.value] else s.store - {key}, s.nowMs + delay)
  }

  function Run(s: Server, calls: seq<Call>): Server
    decreases |calls|
  {
    if calls == [] then s else Run(Step(s, calls[0]), calls[1..])
  }

  /** Other clients leave the lockout keys alone. */
  ghost predicate Allowed(c: Call) {
    c.OtherClient? ==> forall scope :: c.key != LockoutKey(scope)
  }

  /** The call passes its guards and sends a SET with this deadline. */
  function SetSent(s: Server, c: Call): Option<int> {
    match c
    case SetCall(scope, now, expires, io) =>
      if SetGuard(s, scope, now, expires, io.time) == NoError then Some(expires) else None
    case NextCall(scope, now, io) =>
      var s1 := Tick(s, io.time);
      var serverNow := ServerTime(s1, io.time);
      if serverNow.None? || now < serverNow.value - 5 || now > serverNow.value + 5 then None
      else
        var (s2, expiry) := ChooseExpiry(s1, now, io.first, io.second);
        if expiry.None? || expiry.value <= serverNow.value then None
        else if SetGuard(s2, scope, now, expiry.value, io.lock.time) == NoError then expiry
        else None
    case _ => None
  }

  function WriteOf(c: Call): Io
    requires c.SetCall? || c.NextCall?
  {
    if c.SetCall? then c.setIo.write else c.nextIo.lock.write
  }

  /** The server ran this call's SET, with this deadline. */
  function InstalledBy(s: Server, c: Call): Option<int> {
    if (c.SetCall? || c.NextCall?) && Runs(WriteOf(c)) then SetSent(s, c) else None
  }

  /** The server ran a SET or a DEL of this scope's key. */
  predicate Touches(s: Server, c: Call, scope: string) {
    || ((c.SetCall? || c.NextCall?) && c.scope == scope && InstalledBy(s, c).Some?)
    || (c.ClearCall? && c.scope == scope && KeyStatus(scope) == NoError && Runs(c.clearIo))
  }

  predicate SameAt(s: Server, s': Server, key: string) {
    (key in s.store <==> key in s'.store) && (key in s.store ==> s.store[key] == s'.store[key])
  }

  // ----- one call ---------------------------------------------------------

  lemma ReadsKeepStore(s: Server, now: int, year: int, first: LoadIo, second: LoadIo)
    ensures LoadCalendar(s, year, first).0.store == s.store && LoadCalendar(s, year, first).0.nowMs >= s.nowMs
    ensures ChooseExpiry(s, now, first, second).0.store == s.store
    ensures ChooseExpiry(s, now, first, second).0.nowMs >= s.nowMs
  {
    hide Calendar, NextSession, CivilFromDays, DaysFromCivil, CalendarKey, Alive, Ttl;
  }

  lemma InstalledIsFuture(s: Server, c: Call)
    ensures InstalledBy(s, c).Some? ==> InstalledBy(s, c).value > 1
  {
    hide ChooseExpiry;
  }

  /** The store after a call is the store before it, but for the SET or DEL the server ran. */
  lemma StepStore(s: Server, c: Call)
    requires !c.OtherClient?
    ensures Step(s, c).nowMs >= s.nowMs
    ensures InstalledBy(s, c).Some? ==>
              InstalledBy(s, c).value > 1 &&
              Step(s, c).store == WithLock(s, c.scope, InstalledBy(s, c).value).store
    ensures InstalledBy(s, c).None? && !Touches(s, c, c.scope) ==> Step(s, c).store == s.store
    ensures c.ClearCall? && Touches(s, c, c.scope) ==> Step(s, c).store == s.store - {LockoutKey(c.scope)}
  {
    hide ChooseExpiry, Digits, ParseEpoch, Ttl, Alive, LockoutKey;
    InstalledIsFuture(s, c);
    if c.NextCall? {
      ReadsKeepStore(Tick(s, c.nextIo.time), c.now, 0, c.nextIo.first, c.nextIo.second);
    }
  }

  function StatusOf(s: Server, c: Call): Err
    requires c.SetCall? || c.NextCall?
  {
    if c.SetCall? then SetLockout(s, c.scope, c.now, c.expires, c.setIo).1
    else SetNextSession(s, c.scope, c.now, c.nextIo).1
  }

  /** A set succeeds exactly when its SET was sent and answered. It installs its lock exactly
      when the SET was sent and run, and otherwise changes no entry; so a failed set has
      installed a lock exactly when the reply to its SET got lost. */
  lemma SetOutcomeExactly(s: Server, c: Call)
    requires c.SetCall? || c.NextCall?
    ensures StatusOf(s, c) == NoError <==> SetSent(s, c).Some? && WriteOf(c).fate == Answered
    ensures if InstalledBy(s, c).Some? then Holds(Step(s, c), c.scope, SetSent(s, c).value)
            else Step(s, c).store == s.store
    ensures StatusOf(s, c) != NoError ==>
              (InstalledBy(s, c).Some? <==> SetSent(s, c).Some? && WriteOf(c).fate == LostAfter)
    ensures StatusOf(s, c) == ErrInvalidArg || StatusOf(s, c) == ErrRange ==> InstalledBy(s, c).None?
  {
    hide ChooseExpiry, Digits, LockoutKey;
    StepStore(s, c);
  }

  /** Everything a set can do, in the source's order: the deadline must lie after the caller's
      time, the scope must have 1 to 77 characters, the server must give its time, and the
      deadline must lie after that; then the SET is sent, and runs unless it gets lost before. */
  lemma SetLockoutExactly(s: Server, scope: string, now: int, expires: int, io: SetIo)
    ensures var (s', status) := SetLockout(s, scope, now, expires, io);
            var t := (s.nowMs + io.time.delayMs) / 1000;
            var sent := expires > now && 1 <= |scope| <= 77 && io.time.fate == Answered && 0 < t < expires;
            && status == (if expires <= now || |scope| == 0 then ErrInvalidArg
                          else if |scope| > 77 then ErrRange
                          else if io.time.fate != Answered || t <= 0 then ErrIo
                          else if expires <= t then ErrInvalidArg
                          else if io.write.fate == Answered then NoError else ErrIo)
            && s'.store == (if sent && (io.write.fate == Answered || io.write.fate == LostAfter)
                            then s.store[LockoutKey(scope) := Entry(Digits(expires), Some(expires * 1000))]
                            else s.store)
            && s'.nowMs == s.nowMs + (if expires <= now || |scope| == 0 || |scope| > 77 then 0
                                      else io.time.delayMs + if sent then io.write.delayMs else 0)
  {
    hide Digits, LockoutKey, KeyStatus;
    KeyStatusExactly(scope);
  }

  /** Everything a next-session set can do. The server must give its time, the event must lie
      within 5 s of it, a session must be found; its start is then set as a deadline, which
      can still fail on the scope, on the second server time, or on the SET. */
  lemma NextSessionExactly(s: Server, scope: string, now: int, io: NextIo)
    ensures var (s', status, deadline) := SetNextSession(s, scope, now, io);
            var s1 := Tick(s, io.time);
            var t1 := s1.nowMs / 1000;
            var (s2, session) := ChooseExpiry(s1, now, io.first, io.second);
            var t2 := (s2.nowMs + io.lock.time.delayMs) / 1000;
            var sent := io.time.fate == Answered && t1 > 0 && t1 - 5 <= now <= t1 + 5 && session.Some? &&
                        1 <= |scope| <= 77 && io.lock.time.fate == Answered && 0 < t2 < session.value;
            && status == (if io.time.fate != Answered || t1 <= 0 then ErrIo
                          else if now < t1 - 5 || now > t1 + 5 then ErrInvalidArg
                          else if session.None? then ErrIo
                          else if |scope| == 0 then ErrInvalidArg
                          else if |scope| > 77 then ErrRange
                          else if io.lock.time.fate != Answered || t2 <= 0 then ErrIo
                          else if session.value <= t2 then ErrInvalidArg
                          else if io.lock.write.fate == Answered then NoError else ErrIo)
            && deadline == (if status == NoError then session else None)
            && s'.store == (if sent && (io.lock.write.fate == Answered || io.lock.write.fate == LostAfter)
                            then s.store[LockoutKey(scope) := Entry(Digits(session.value), Some(session.value * 1000))]
                            else s.store)
  {
    hide ChooseExpiry, SetLockout, Digits, LockoutKey, KeyStatus;
    var s1 := Tick(s, io.time);
    var t1 := s1.nowMs / 1000;
    var (s2, session) := ChooseExpiry(s1, now, io.first, io.second);
    ReadsKeepStore(s1, now, 0, io.first, io.second);
    if t1 - 5 <= now <= t1 + 5 && session.Some? {
      DeadlineIsAhead(s1, now, t1, io.first, io.second);
      SetLockoutExactly(s2, scope, now, session.value, io.lock);
    }
  }

  /** A set that returned an error and locked the scope all the same. */
  lemma LostReplyInstalls()
    ensures var c := SetCall("desk", 1000, 2000, SetIo(Io(0, Answered), Io(0, LostAfter)));
            var s := Server(map[], 1_000_000);
            StatusOf(s, c) == ErrIo && Holds(Step(s, c), "desk", 2000)
  {
    hide Digits, LockoutKey;
    var c := SetCall("desk", 1000, 2000, SetIo(Io(0, Answered), Io(0, LostAfter)));
    SetOutcomeExactly(Server(map[], 1_000_000), c);
  }

  /** A call for one scope leaves every other scope's entry as it was. */
  lemma OtherScopesKept(s: Server, c: Call, scope: string)
    requires Allowed(c) && !Touches(s, c, scope)
    ensures SameAt(s, Step(s, c), LockoutKey(scope)) && Step(s, c).nowMs >= s.nowMs
  {
    hide ChooseExpiry, Step, LockoutKey;
    if c.OtherClient? {
      OtherClientKeeps(s, c, scope);
    } else {
      StepStore(s, c);
      KeysDiffer(c.scope, scope);
    }
  }

  lemma OtherClientKeeps(s: Server, c: Call, scope: string)
    requires c.OtherClient? && Allowed(c)
    ensures SameAt(s, Step(s, c), LockoutKey(scope)) && Step(s, c).nowMs >= s.nowMs
  {
    hide LockoutKey;
    assert c.key != LockoutKey(scope);
  }

  // ----- whole runs -------------------------------------------------------

  ghost predicate Untouched(s: Server, calls: seq<Call>, scope: string)
    decreases |calls|
  {
    calls == [] ||
    (Allowed(calls[0]) && !Touches(s, calls[0], scope) && Untouched(Step(s, calls[0]), calls[1..], scope))
  }

  lemma {:induction false} RunKeepsUntouched(s: Server, calls: seq<Call>, scope: string)
    requires Untouched(s, calls, scope)
    ensures SameAt(s, Run(s, calls), LockoutKey(scope)) && Run(s, calls).nowMs >= s.nowMs
    decreases |calls|
  {
    hide Step, Touches, LockoutKey, Allowed;
    if calls != [] {
      OtherScopesKept(s, calls[0], scope);
      RunKeepsUntouched(Step(s, calls[0]), calls[1..], scope);
    }
  }

  /** This lockout is in the store, expired or not. */
  predicate Holds(s: Server, scope: string, deadline: int) {
    deadline > 0 && LockoutKey(scope) in s.store &&
    s.store[LockoutKey(scope)] == Entry(Digits(deadline), Some(deadline * 1000))
  }

  /** A check of a lockout that is in force never reports the scope as unlocked: it
      answers "locked", with the deadline or with an error, or it leaves the flag alone. */
  lemma LockIsReported(s: Server, scope: string, deadline: int, io: CheckIo)
    requires Holds(s, scope, deadline) && KeyStatus(scope) == NoError && deadline <= INT64_MAX
    ensures var reply := Check(s, scope, io).1;
            && (reply.locked == Some(false) ==> s.nowMs + io.get.delayMs > deadline * 1000)
            && (reply.status == NoError && reply.locked == Some(true) ==> reply.expires == Some(deadline))
  {
    hide ParseEpoch, Digits, LockoutKey;
    EpochRoundTrip(deadline);
  }

  /** No early release. After a set that succeeded with some deadline, through any calls
      on any scopes, with any command outcomes, as long as no SET or DEL of this scope
      ran at the server, a check before the deadline does not report "unlocked". */
  lemma NoEarlyRelease(s: Server, set0: Call, calls: seq<Call>, io: CheckIo)
    requires set0.SetCall? || set0.NextCall?
    requires InstalledBy(s, set0).Some? && InstalledBy(s, set0).value <= INT64_MAX
    requires Untouched(Step(s, set0), calls, set0.scope)
    ensures var deadline := InstalledBy(s, set0).value;
            var s' := Run(Step(s, set0), calls);
            var reply := Check(s', set0.scope, io).1;
            && Holds(s', set0.scope, deadline)
            && (reply.locked == Some(false) ==> s'.nowMs + io.get.delayMs > deadline * 1000)
            && (reply.status == NoError && reply.locked == Some(true) ==> reply.expires == Some(deadline))
  {
    InstalledScope(s, set0);
    StepStore(s, set0);
    hide InstalledBy, Step, LockoutKey, Check, Digits, Untouched;
    var s1 := Step(s, set0);
    RunKeepsUntouched(s1, calls, set0.scope);
    LockIsReported(Run(s1, calls), set0.scope, InstalledBy(s, set0).value, io);
  }

  lemma InstalledScope(s: Server, c: Call)
    requires InstalledBy(s, c).Some?
    ensures KeyStatus(c.scope) == NoError
  {
    hide ChooseExpiry;
  }

  /** Server time and TTL agree: the TTL was read soon enough after the second in which the
      server time was read, and at least half a second before the deadline. */
  predicate Confirms(s: Server, deadline: int, io: CheckIo) {
    var t := s.nowMs + io.get.delayMs + io.time.delayMs;
    io.time.fate == Answered && io.ttl.fate == Answered && t >= 1000 &&
    deadline * 1000 - (t + io.ttl.delayMs) >= 500 && t % 1000 + io.ttl.delayMs <= 1500
  }

  /** Every answer a check can give about a lockout in the store. Before the deadline it is
      always "locked", and it is confirmed exactly under the condition above; otherwise the
      check reports an error with the flag set. */
  lemma CheckConfirmsExactly(s: Server, scope: string, deadline: int, io: CheckIo)
    requires Holds(s, scope, deadline) && KeyStatus(scope) == NoError && deadline <= INT64_MAX
    ensures Check(s, scope, io).1 ==
            if io.get.fate != Answered then CheckReply(ErrIo, None, None)
            else if s.nowMs + io.get.delayMs > deadline * 1000 then CheckReply(NoError, Some(false), None)
            else if Confirms(s, deadline, io) then CheckReply(NoError, Some(true), Some(deadline))
            else CheckReply(ErrIo, Some(true), None)
  {
    hide ParseEpoch, Digits, LockoutKey;
    EpochRoundTrip(deadline);
  }

  /** Whatever is in the store, a confirmed deadline is the one its text spells, and the key goes
      within a second and a half of it, give or take the time the TTL took. */
  lemma ConfirmedIsTrue(s: Server, scope: string, io: CheckIo, deadline: int)
    requires Check(s, scope, io).1 == CheckReply(NoError, Some(true), Some(deadline))
    ensures var key := LockoutKey(scope);
            && key in s.store && ParseEpoch(s.store[key].value) == Some(deadline)
            && s.store[key].expiryMs.Some?
            && deadline * 1000 - 1500 <= s.store[key].expiryMs.value - io.ttl.delayMs <= deadline * 1000 + 1500
            && s.nowMs + io.get.delayMs + io.time.delayMs + io.ttl.delayMs < s.store[key].expiryMs.value
  {
    hide ParseEpoch, LockoutKey;
  }

  /** A key that is there but cannot be confirmed counts as locked: text that is no time, no
      expiry, or an expiry far from the text. Only a key that is not there is unlocked. */
  lemma DoubtIsLocked(s: Server, scope: string, io: CheckIo)
    requires KeyStatus(scope) == NoError && io.get.fate == Answered
    ensures var reply := Check(s, scope, io).1;
            var there := Alive(Tick(s, io.get), LockoutKey(scope));
            && (reply.locked == Some(there))
            && (!there ==> reply == CheckReply(NoError, Some(false), None))
            && (there && ParseEpoch(s.store[LockoutKey(scope)].value) == None ==>
                  reply == CheckReply(ErrIo, Some(true), None))
            && (there && s.store[LockoutKey(scope)].expiryMs == None ==> reply == CheckReply(ErrIo, Some(true), None))
  {
    hide ParseEpoch, LockoutKey;
  }

  /** A TTL that is answered late, and a lockout in its last half second, are both errors. */
  lemma LiveLockNotConfirmed(s: Server, scope: string)
    requires Holds(s, scope, 2000) && KeyStatus(scope) == NoError
    ensures s.nowMs == 1_000_000 ==>
              Check(s, scope, CheckIo(Io(0, Answered), Io(0, Answered), Io(2500, Answered))).1 ==
              CheckReply(ErrIo, Some(true), None)
    ensures s.nowMs == 1_999_600 ==>
              Check(s, scope, CheckIo(Io(0, Answered), Io(0, Answered), Io(0, Answered))).1 ==
              CheckReply(ErrIo, Some(true), None)
  {
    hide Check, Digits, LockoutKey;
    CheckConfirmsExactly(s, scope, 2000, CheckIo(Io(0, Answered), Io(0, Answered), Io(2500, Answered)));
    CheckConfirmsExactly(s, scope, 2000, CheckIo(Io(0, Answered), Io(0, Answered), Io(0, Answered)));
  }

  /** A clear reports success exactly when its DEL was answered or refused, and removes a stored
      lock exactly when the DEL was run; so a failed clear has removed the lock exactly when
      the reply to its DEL got lost. */
  lemma ClearOutcomeExactly(s: Server, scope: string, io: Io)
    ensures var (s', status), key, sent := Clear(s, scope, io), LockoutKey(scope), KeyStatus(scope) == NoError;
            && (status == NoError <==> sent && (io.fate == Answered || io.fate == Refused))
            && s'.store == (if sent && Runs(io) then s.store - {key} else s.store)
            && (status != NoError && key in s.store ==> (key !in s'.store <==> sent && io.fate == LostAfter))
  {
    hide LockoutKey;
  }

  /** After a clear that reports success, through any run that does not set the scope again,
      an answered check says "unlocked", unless the server had refused the DEL. */
  lemma ClearReleases(s: Server, scope: string, io: Io, calls: seq<Call>, io2: CheckIo)
    requires Clear(s, scope, io).1 == NoError && io.fate != Refused
    requires Untouched(Clear(s, scope, io).0, calls, scope) && io2.get.fate == Answered
    ensures Check(Run(Clear(s, scope, io).0, calls), scope, io2).1 == CheckReply(NoError, Some(false), None)
  {
    hide LockoutKey, Run, Untouched;
    RunKeepsUntouched(Clear(s, scope, io).0, calls, scope);
  }

  /** A refused DEL is reported as success too, and the lockout then stays in force. */
  lemma RefusedClearKeepsLock(s: Server, scope: string, deadline: int, io: Io, calls: seq<Call>, io2: CheckIo)
    requires Holds(s, scope, deadline) && deadline <= INT64_MAX && KeyStatus(scope) == NoError
    requires io.fate == Refused && Untouched(Clear(s, scope, io).0, calls, scope) && io2.get.fate == Answered
    ensures Clear(s, scope, io).1 == NoError
    ensures var s' := Run(Clear(s, scope, io).0, calls);
            s'.nowMs + io2.get.delayMs <= deadline * 1000 ==> Check(s', scope, io2).1.locked == Some(true)
  {
    hide LockoutKey, Run, Untouched, Digits, Check;
    var s1 := Clear(s, scope, io).0;
    RunKeepsUntouched(s1, calls, scope);
    CheckConfirmsExactly(Run(s1, calls), scope, deadline, io2);
  }

  // ----- the next-session deadline ----------------------------------------

  /** The source divides with truncation; for event times near a positive server time
      that is the KST day of the event. */
  lemma EventYearIsKstYear(now: int)
    requires now >= -4
    ensures EventYear(now) == CivilFromDays(KstDayOf(now)).year
  {
    FloorDivIsFloor(now + KST_OFFSET, SECONDS_PER_DAY);
  }

  lemma EndOfYearIs(year: int)
    ensures EndOfYear(year) == DaysBeforeYear(year + 1) - 1
  {
    hide DaysFromCivil, DaysBeforeYear;
    DaysFromCivilIsPlainCount(year, 12, 31);
    DaysBeforeMonthClosed(year, 12);
    YearLengthIs(year);
  }

  /** A loaded calendar is what the reader accepts: ascending and inside its year. */
  lemma LoadedCalendar(s: Server, year: int, io: LoadIo)
    requires LoadCalendar(s, year, io).1.Some?
    ensures var days := LoadCalendar(s, year, io).1.value; Ascending(days) && InYear(days, year)
  {
    hide Calendar, CalendarKey, Ttl, InYear, Ascending;
    var s1 := Tick(s, io.get);
    AcceptedCalendar(s1.store[CalendarKey(year)].value, year);
  }

  /** The calendars of two consecutive years, appended, are one ascending calendar. */
  lemma MergedCalendar(first: seq<int>, second: seq<int>, year: int)
    requires Ascending(first) && InYear(first, year) && Ascending(second) && InYear(second, year + 1)
    ensures Ascending(first + second) && Sorted(first + second)
    ensures forall i :: 0 <= i < |second| ==> second[i] > EndOfYear(year)
  {
    hide DaysBeforeYear, EndOfYear;
    EndOfYearIs(year);
  }

  /** Reading this year first and next year only if needed gives what one computation
      over both calendars gives, whatever next year's calendar turns out to be. */
  lemma OneComputation(s: Server, now: int, first: LoadIo, second: LoadIo, next: seq<int>)
    requires ChooseExpiry(s, now, first, second).1.Some?
    requires Ascending(next) && InYear(next, EventYear(now) + 1)
    requires var (s1, days) := LoadCalendar(s, EventYear(now), first);
             NextSession(now, days.value, EndOfYear(EventYear(now))) == INSUFFICIENT ==>
               LoadCalendar(s1, EventYear(now) + 1, second).1 == Some(next)
    ensures var days := LoadCalendar(s, EventYear(now), first).1;
            days.Some? && ChooseExpiry(s, now, first, second).1 ==
            Some(NextSession(now, days.value + next, EndOfYear(EventYear(now) + 1)))
  {
    hide LoadCalendar, EventYear, EndOfYear, FirstSession, InYear, DaysBeforeYear, KstDayOf;
    var year := EventYear(now);
    var days := LoadCalendar(s, year, first).1.value;
    LoadedCalendar(s, year, first);
    MergedCalendar(days, next, year);
    EndOfYearIs(year);
    EndOfYearIs(year + 1);
    YearStarts(year + 1, year + 2);
    MoreCalendar(KstDayOf(now) + 1, days, EndOfYear(year), next, EndOfYear(year + 1));
  }

  ghost predicate TradesIn(after: int, last: int, holidays: seq<int>) {
    exists d :: after < d <= last && IsTradingDay(d, holidays)
  }

  /** A session is found exactly when this year's calendar loads, and a trading day is left this
      year, or next year's loads too, a day is left in the two years and their calendars fit one
      buffer together. Each fits alone, but two long ones need not. */
  lemma SessionFoundExactly(s: Server, now: int, first: LoadIo, second: LoadIo)
    ensures var year := EventYear(now);
            var (s1, days) := LoadCalendar(s, year, first);
            var more := LoadCalendar(s1, year + 1, second).1;
            ChooseExpiry(s, now, first, second).1.Some? <==>
            days.Some? &&
            (TradesIn(KstDayOf(now), EndOfYear(year), days.value) ||
             (more.Some? && |days.value| + |more.value| <= 512 &&
              TradesIn(KstDayOf(now), EndOfYear(year + 1), days.value + more.value)))
  {
    hide LoadCalendar, EventYear, EndOfYear, NextSession, KstDayOf, IsTradingDay, IsNextTradingDay;
    var year := EventYear(now);
    var (s1, days) := LoadCalendar(s, year, first);
    var more := LoadCalendar(s1, year + 1, second).1;
    if days.Some? {
      NextSessionIsLeast(now, days.value, EndOfYear(year));
      if more.Some? {
        NextSessionIsLeast(now, days.value + more.value, EndOfYear(year + 1));
      }
    }
  }

  /** A calendar loads exactly when its key is read in time, holds a text that spells a calendar
      of the year, and has an expiry at least half a second after its TTL is read. */
  lemma CalendarLoadsExactly(s: Server, year: int, io: LoadIo, days: seq<int>)
    ensures var key, read := CalendarKey(year), s.nowMs + io.get.delayMs;
            LoadCalendar(s, year, io).1 == Some(days) <==>
            && io.get.fate == Answered && io.ttl.fate == Answered
            && key in s.store && Calendar(s.store[key].value, year) == Some(days)
            && s.store[key].expiryMs.Some?
            && s.store[key].expiryMs.value - (read + io.ttl.delayMs) >= 500
  {
    hide Calendar, CalendarKey;
  }

  // Two calendars that do not fit together.

  /** The first n days of a year. */
  function FirstDays(year: int, n: nat): (days: seq<int>)
    ensures |days| == n && forall i :: 0 <= i < n ==> days[i] == DaysBeforeYear(year) + i
  {
    seq(n, i => DaysBeforeYear(year) + i)
  }

  /** A server with the calendars of two years: one closes the whole year, the other its
      first 148 days. */
  function TwoCalendars(year: int, nowMs: int): Server {
    Server(map[CalendarKey(year) := Entry(CalendarText(FirstDays(year, YearLength(year))), Some(nowMs + 1000)),
               CalendarKey(year + 1) := Entry(CalendarText(FirstDays(year + 1, 148)), Some(nowMs + 1000))], nowMs)
  }

  lemma CalendarLoads(s: Server, year: int, days: seq<int>)
    requires 0 <= year <= 9999 && Ascending(days) && InYear(days, year)
    requires CalendarKey(year) in s.store
    requires s.store[CalendarKey(year)] == Entry(CalendarText(days), Some(s.nowMs + 1000))
    ensures LoadCalendar(s, year, LoadIo(Io(0, Answered), Io(0, Answered))) == (s, Some(days))
  {
    hide Calendar, CalendarText, CalendarKey, DaysBeforeYear;
    EveryCalendarReadable(days, year);
  }

  lemma YearKeysDiffer(year: nat)
    ensures CalendarKey(year) != CalendarKey(year + 1)
  {
    var prefix := "krx:holidays:";
    hide Digits;
    DigitsDecimal(year);
    DigitsDecimal(year + 1);
    assert CalendarKey(year)[|prefix|..] == Digits(year) && CalendarKey(year + 1)[|prefix|..] == Digits(year + 1);
  }

  lemma WeekdayNear(day: int) returns (d: int)
    ensures day - 2 <= d <= day && (d + 3) % 7 < 5
  {
    var q, r := (day + 3) / 7, (day + 3) % 7;
    d := if r < 5 then day else day - (r - 4);
    QuotientUnique(d + 3, 7, q, if r < 5 then r else 4);
  }

  lemma ClosedYear(year: int, after: int)
    requires after >= DaysBeforeYear(year) - 1
    ensures !TradesIn(after, EndOfYear(year), FirstDays(year, YearLength(year)))
  {
    hide EndOfYear, DaysBeforeYear, FirstDays;
    EndOfYearIs(year);
    YearLengthIs(year);
    var days := FirstDays(year, YearLength(year));
    forall k | after < k <= EndOfYear(year)
      ensures k in days
    {
      assert days[k - DaysBeforeYear(year)] == k;
    }
  }

  lemma LateSession(year: int, after: int)
    requires after < DaysBeforeYear(year + 1)
    ensures TradesIn(after, EndOfYear(year + 1), FirstDays(year, YearLength(year)) + FirstDays(year + 1, 148))
  {
    hide EndOfYear, DaysBeforeYear, FirstDays;
    var days, more := FirstDays(year, YearLength(year)), FirstDays(year + 1, 148);
    EndOfYearIs(year + 1);
    YearLengthIs(year);
    YearLengthIs(year + 1);
    var d := WeekdayNear(EndOfYear(year + 1));
    assert forall i :: 0 <= i < |days| ==> days[i] != d;
    assert forall i :: 0 <= i < |more| ==> more[i] != d;
    assert d !in days && d !in more;
    assert IsTradingDay(d, days + more);
  }

  /** For every event from 1970 on there are two readable calendars with a session left in the second year
      for which the next-session lockout still fails, because they do not fit one buffer. */
  lemma LongCalendarsDoNotFit(year: int, now: int, nowMs: int)
    requires 1970 <= year <= 9998 && now >= -4 && EventYear(now) == year
    ensures var s, io := TwoCalendars(year, nowMs), LoadIo(Io(0, Answered), Io(0, Answered));
            var days, more := FirstDays(year, YearLength(year)), FirstDays(year + 1, 148);
            && LoadCalendar(s, year, io) == (s, Some(days)) && LoadCalendar(s, year + 1, io) == (s, Some(more))
            && TradesIn(KstDayOf(now), EndOfYear(year + 1), days + more)
            && ChooseExpiry(s, now, io, io).1 == None
  {
    hide LoadCalendar, CalendarText, CalendarKey, EventYear, EndOfYear, DaysBeforeYear, KstDayOf, ChooseExpiry;
    hide FirstDays;
    var s, io := TwoCalendars(year, nowMs), LoadIo(Io(0, Answered), Io(0, Answered));
    var days, more := FirstDays(year, YearLength(year)), FirstDays(year + 1, 148);
    YearKeysDiffer(year);
    YearLengthIs(year);
    YearLengthIs(year + 1);
    CalendarLoads(s, year, days);
    CalendarLoads(s, year + 1, more);
    EventInYear(year, now);
    EndOfYearIs(year);
    EndOfYearIs(year + 1);
    LateSession(year, KstDayOf(now));
    ClosedYear(year, KstDayOf(now));
    SessionFoundExactly(s, now, io, io);
  }

  lemma EventInYear(year: int, now: int)
    requires now >= -4 && EventYear(now) == year
    ensures DaysBeforeYear(year) <= KstDayOf(now) < DaysBeforeYear(year + 1)
  {
    hide EventYear, CivilFromDays, DaysBeforeYear, KstDayOf;
    EventYearIsKstYear(now);
    YearOfDay(KstDayOf(now), year);
    YearOfDay(KstDayOf(now), year + 1);
  }

  /** The holidays that the decision was made from: this year's, and next year's if needed. */
  function Consulted(s: Server, now: int, first: LoadIo, second: LoadIo): (holidays: seq<int>)
    requires ChooseExpiry(s, now, first, second).1.Some?
  {
    var (s1, days) := LoadCalendar(s, EventYear(now), first);
    if NextSession(now, days.value, EndOfYear(EventYear(now))) != INSUFFICIENT then days.value
    else days.value + LoadCalendar(s1, EventYear(now) + 1, second).1.value
  }

  /** The chosen deadline starts the least trading day after the event and lies more than
      32395 seconds past the server time, so the last expiry test of the source never rejects. */
  lemma DeadlineIsAhead(s: Server, now: int, serverNow: int, first: LoadIo, second: LoadIo)
    requires serverNow - 5 <= now <= serverNow + 5
    requires ChooseExpiry(s, now, first, second).1.Some?
    ensures var expiry := ChooseExpiry(s, now, first, second).1.value;
            expiry > serverNow + 32395 && expiry % SECONDS_PER_DAY == 0 &&
            IsNextTradingDay(expiry / SECONDS_PER_DAY, KstDayOf(now), Consulted(s, now, first, second))
  {
    hide LoadCalendar, EventYear, EndOfYear, FirstSession, NextSession, KstDayOf, IsNextTradingDay;
    var year := EventYear(now);
    var (s1, days) := LoadCalendar(s, year, first);
    NextSessionIsLeast(now, days.value, EndOfYear(year));
    var more := LoadCalendar(s1, year + 1, second).1;
    if NextSession(now, days.value, EndOfYear(year)) == INSUFFICIENT {
      NextSessionIsLeast(now, days.value + more.value, EndOfYear(year + 1));
    }
  }

  /** After a next-session lockout succeeds, no check for its scope reports "unlocked"
      before the start of the least trading day after the event. */
  lemma LockedUntilNextSession(s: Server, c: Call, calls: seq<Call>, io: CheckIo)
    requires c.NextCall? && SetNextSession(s, c.scope, c.now, c.nextIo).1 == NoError
    requires SetNextSession(s, c.scope, c.now, c.nextIo).2.value <= INT64_MAX
    requires Untouched(Step(s, c), calls, c.scope)
    ensures var s1 := Tick(s, c.nextIo.time);
            var deadline := SetNextSession(s, c.scope, c.now, c.nextIo).2.value;
            var s' := Run(Step(s, c), calls);
            && ChooseExpiry(s1, c.now, c.nextIo.first, c.nextIo.second).1 == Some(deadline)
            && IsNextTradingDay(deadline / SECONDS_PER_DAY, KstDayOf(c.now),
                                Consulted(s1, c.now, c.nextIo.first, c.nextIo.second))
            && deadline % SECONDS_PER_DAY == 0
            && (Check(s', c.scope, io).1.locked == Some(false) ==> s'.nowMs + io.get.delayMs > deadline * 1000)
  {
    SetOutcomeExactly(s, c);
    hide ChooseExpiry, Step, Run, Check, Untouched, IsNextTradingDay, Consulted, KstDayOf, SetLockout;
    var s1 := Tick(s, c.nextIo.time);
    DeadlineIsAhead(s1, c.now, ServerTime(s1, c.nextIo.time).value, c.nextIo.first, c.nextIo.second);
    NoEarlyRelease(s, c, calls, io);
  }
}
