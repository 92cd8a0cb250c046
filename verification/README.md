# Verified model of the alpha pipeline's C core

This project models the parts of the trading pipeline where being wrong is expensive and where the code is hard to
check by reading it: the PostgreSQL pipeline client and the loop that drives it, the breaker lockout kept in Redis with
the calendar arithmetic under it, the backtest engine and its metrics, the decision kernels, the SHA-256 and the work
distribution of the benchmark adapters, and the HTTP client's request list. `dafny verify dfyconfig.toml` checks all of
it.

Code that changes things in place is modelled in place (classes with `modifies` clauses, arrays, loops with
invariants), and each such method is proved equal to a function on values. The theorems are about those functions and
about all runs of them.

| files | what they model |
|---|---|
| `Wrappers`, `Quotients` | the option type, facts about quotients |
| `CivilDate`, `DecimalText`, `DateText` | civil-date conversion, digits, ISO date parsing and formatting |
| `HolidayCalendar`, `MarketHours` | the hand-written holiday reader, next trading session |
| `BreakerLockout`, `LockoutRuns`, `RedisCache` | lockout calls on a Redis store with clock and expiry; all runs of them; the connection object |
| `PgPipeline`, `PgClient` | pipeline client against a pipeline-mode server; the ring-buffer object |
| `PgAdapter`, `PgDriver` | the single-in-flight driver loop; its object |
| `Backtest`, `BacktestEngine`, `Metrics` | simulation, engine object, drawdown and holding time |
| `Ranking`, `Blending` | screener selection, drawdown pick, signal blending |
| `Sha256Words`, `Sha256`, `Sha256Bits`, `Sha256Constants` | the word functions, the hash, its words as bits and numbers, its constants as roots of primes |
| `WorkDistribution` | worker ranges and token lists |
| `HttpRequests`, `HttpClient` | request list as a step system with re-entrant callbacks; the linked-list object |

## How the outside world is modelled

- **PostgreSQL.** The server answers every query with one result, in send order; after a failed query it answers
  ABORTED until the Sync, whose marker ends the batch. Readiness, partial flushes and how many results are available at
  a time are arbitrary. Each query's verdict (error, or rows that parse or do not) is arbitrary.
- **Redis.** A map from key to value and absolute expiry, and a millisecond clock that only moves forward. Every
  command takes any time and ends in one of four ways: answered, refused by the server, lost before it ran, lost after
  it ran. A key is gone once the clock is past its expiry, and TTL rounds to the nearest second, as the Redis server does
  it. Other clients may do anything to keys other than lockout keys.
- **libcurl.** It reports body data and completion only for handles it holds, and completion once. Any allocation or
  option call may fail.
- **Floating point** is exact `real` arithmetic. **Integers** are unbounded, except where the code tests a range or
  wraps (`UINT32` wrap in the date code, 32-bit words and the 64-bit length field in SHA-256, the epoch parser's limit).

## Where the code differs from what it says, or a natural property fails

- `2024-02-31` parses, as the day of 2024-03-02 (`UnrealDateParses`). Formatting gives the text back exactly when the day
  exists (`FormatUndoesParse`).
- The calendar reader is documented to reject malformed calendars. It accepts a comma after the last date and days past
  the end of the month (`LaxCalendarAccepted`); `AcceptedLanguage` gives the exact language. The check of the computed
  year can never fail (`EntryStaysInYear`), nor can the buffer fill up (`AcceptedCalendar`).
- One calendar always fits its buffer, but two long ones do not fit together (up to 731 entries in 512 slots), and the
  next-session lockout then fails (`LongCalendarsDoNotFit`); `SessionFoundExactly` says when.
- A live lockout is not always confirmed. The check returns an error, with the flag still "locked", when less than half a
  second of the lockout is left, and also when the TTL is answered too long after the server time: later than 1.5 s
  after the start of the second in which the time was read (`CheckConfirmsExactly`, `LiveLockNotConfirmed`).
- Clearing a lockout returns success when the server refused the DEL, and the lockout stays in force
  (`RefusedClearKeepsLock`, `ClearReleases`).
- A set that fails has installed its lock all the same exactly when the reply to its SET got lost (`SetOutcomeExactly`,
  `LostReplyInstalls`).
- A clear that fails has removed the lock all the same exactly when the reply to its DEL got lost (`ClearOutcomeExactly`).
- A row that does not parse fails its own request only, so "all requests from the first failure on fail" holds with
  "first failure" meaning the first failed query (`RecoveryAtSync`, `ParseFailureDoesNotAbort`).
- Backtest cash can go negative when the selling rates add up to more than 100 % (`CashNonNegativeExactly`, `Overdraft`).
  The engine's guard against rounding never acts in exact arithmetic (`LargestAffordable`).
- The one-pass drawdown is the worst fall from the highest value so far. For the engine's runs that is the worst fall
  from any positive value to a later one exactly when the selling rates add up to at most 100 %
  (`DrawdownIsWorstExactly`, with a failing run in `OverdrawnRun`). At a single bar it is so exactly when the bar is not
  negative or all positive values before it are the peak (`WorstAtBarExactly`).
- The benchmark's expected token list is in text order only up to a million iterations (`ExpectedSortedExactly`,
  `SevenDigitsSortEarlier`); equal length of the operation ids is not needed.
- Cancelling an HTTP request from inside its own completion callback reports it twice, after which that callback has no
  defined way to return (`OnceExactly`, `SelfCancelReportsTwice`).

## Model

| member | source | states |
|---|---|---|
| `CivilDate.DaysFromCivilIsPlainCount` | core/src/domain/date.c:8-15 | the closed formula equals counting days year by year and month by month from 1970-01-01, for every year, also for day numbers past the end of a month |
| `CivilDate.DayNumberIsMonotone` | core/src/domain/date.c:8-15 | later real dates have larger day numbers |
| `CivilDate.YearOfEraExact` | core/src/domain/date.c:17-22 | the year-of-era estimate is exact on all 146097 days of an era |
| `CivilDate.CivilFromDaysIsReal` | core/src/domain/date.c:17-28 | every day number gives a real Gregorian date that counts back to it; the unsigned wrap-arounds are harmless |
| `CivilDate.CivilConversionsAreInverse` | core/src/domain/date.c:8-28 | with the row above: the conversions are inverse bijections between all day numbers and all real dates |
| `CivilDate.YearOfDay` | core/platform/cache/redis_cache.c:63-73 | the year of a day number is at least y exactly from 1 January of y on |
| `DateText.ParseDigits` | core/src/domain/date.c:31-41 | the digit loop accepts digits only and returns their number |
| `DateText.DateParse` | core/src/domain/date.c:43-63 | the parser is the acceptance condition and day number used in the two round trips |
| `DateText.FourDigitYears` | core/src/domain/date.c:65-75 | years 0000 to 9999 are exactly the days -719528 to 2932896 |
| `DateText.ParseUndoesFormat` | core/src/domain/date.c:43-75 | parsing a formatted day gives the day back for all days of years 0000 to 9999, and rejects the text of every other day |
| `DateText.FormatUndoesParse` | core/src/domain/date.c:43-75 | formatting a parsed text gives the text back if and only if its day exists in its month |
| `DateText.UnrealDateParses` | core/src/domain/date.c:43-75 | 2024-02-31 is accepted and formats as 2024-03-02 |
| `DateText.ShortBufferRefused` | core/src/domain/date.c:65-75 | formatting refuses exactly the buffers that cannot hold ten characters and a NUL |
| `DateText.LongTextIsCut` | core/src/domain/date.c:65-75 | what is written is the text of the date, cut to one character less than the buffer |
| `DecimalText.PaddedSignedRoundTrip` | core/src/domain/date.c:65-75 | a signed padded number reads back, has its width whenever it fits, and the sign counts toward it |
| `HolidayCalendar.EntryStaysInYear` | core/platform/cache/redis_cache.c:54-73 | every accepted entry lies in its own year, so the computed-year check never rejects |
| `HolidayCalendar.AcceptedCalendar` | core/platform/cache/redis_cache.c:94-131 | accepted calendars are strictly ascending, inside their year, at most one entry a day and so always below the buffer size |
| `HolidayCalendar.AcceptedLanguage` | core/platform/cache/redis_cache.c:75-131 | a document is accepted with given days if and only if it is spelled by the grammar with dates of that year in ascending order |
| `HolidayCalendar.PlainCalendarAccepted` | core/platform/cache/redis_cache.c:94-131 | every ascending list of real dates of a year is read back from its plain spelling |
| `HolidayCalendar.EveryCalendarReadable` | core/platform/cache/redis_cache.c:94-131 | every ascending list of days of a year has a spelling that is read back: with AcceptedCalendar, the readable calendars are exactly these |
| `HolidayCalendar.LaxCalendarAccepted` | core/platform/cache/redis_cache.c:94-131 | a comma after the last date and any day up to 31 are accepted |
| `HolidayCalendar.SkipSpaceFrom` | core/platform/cache/redis_cache.c:75-80 | the cursor stops at the first non-space |
| `HolidayCalendar.ReadEntry` | core/platform/cache/redis_cache.c:82-119 | one entry is accepted exactly when quoted, well formed, of the year and later than the last, and gives its day |
| `HolidayCalendar.ReadCalendar` | core/platform/cache/redis_cache.c:94-131 | the cursor loop that fills the array accepts and returns exactly the specified calendar |
| `MarketHours.FloorDivIsFloor` | core/src/calendar/market_hours.c:6-14 | the corrected truncating division is floor division |
| `MarketHours.WeekendIsSaturdayOrSunday` | core/src/calendar/market_hours.c:16-20 | weekend days are the fifth and sixth weekday after Monday, from Thursday 1970-01-01 |
| `MarketHours.IsHoliday` | core/src/calendar/market_hours.c:39-50 | on a sorted list the early break decides exact membership |
| `MarketHours.NextTradingSessionStart` | core/src/calendar/market_hours.c:31-37 | start of the least weekday after the event's KST day, a multiple of 86400, more than nine hours ahead; equal to the Python reference |
| `MarketHours.NextTradingSessionStartHolidayAware` | core/src/calendar/market_hours.c:52-68 | the day loop terminates and is the specified search |
| `MarketHours.NextSessionIsLeast` | core/src/calendar/market_hours.c:22-68 | the result starts the least trading day after the event's KST day, or is -1 if and only if no covered day trades; real results are multiples of 86400 and exceed from_epoch + 32400 |
| `MarketHours.NextSessionIsMonotone` | core/src/calendar/market_hours.c:52-68 | a later event never gets an earlier session nor gains coverage |
| `MarketHours.MoreCalendar` | core/src/calendar/market_hours.c:52-68 | a result already found survives adding later holidays and coverage |
| `MarketHours.WeekendOnlyAgrees` | tools/generate_golden_decisions.py:255-259 | without holidays the covered search is the Python reference for every event time, or -1 when the reference day is not covered |
| `BreakerLockout.EpochRoundTrip` | core/platform/cache/redis_cache.c:28-37 | the stored decimal deadline reads back for every positive 64-bit value |
| `BreakerLockout.KeysDiffer` | core/platform/cache/redis_cache.c:20-26 | different scopes have different keys |
| `BreakerLockout.KeysSpelled` | core/platform/cache/redis_cache.c:20-26 | how a lockout key and a calendar key are spelled |
| `BreakerLockout.KeyStatusExactly` | core/platform/cache/redis_cache.c:20-26 | an empty scope is refused, and one of 78 characters or more as too long; all others are accepted |
| `BreakerLockout.EpochTextExactly` | core/platform/cache/redis_cache.c:28-37 | a stored text is read as n if and only if it is spaces, an optional plus sign and digits that denote n, positive and within 64 bits |
| `LockoutRuns.StepStore` | core/platform/cache/redis_cache.c:242-380 | the store after a call is the store before it but for the SET or DEL the server ran, with the deadline as both value and absolute expiry |
| `LockoutRuns.SetLockoutExactly` | core/platform/cache/redis_cache.c:242-268 | status and store after every set, for all arguments, times and command outcomes |
| `LockoutRuns.NextSessionExactly` | core/platform/cache/redis_cache.c:270-318 | status, store and handed-out deadline after every next-session set, for all arguments, times and command outcomes |
| `LockoutRuns.CalendarLoadsExactly` | core/platform/cache/redis_cache.c:133-154 | a calendar loads with given days if and only if both commands are answered, the stored text spells those days of that year, and its expiry is at least half a second after the TTL is read |
| `LockoutRuns.SetOutcomeExactly` | core/platform/cache/redis_cache.c:242-318 | for both kinds of set: success if and only if its SET was sent and answered; the lock is in the store if and only if the SET was sent and run, else the store is unchanged; so a failed set has locked if and only if the reply to its SET got lost, and never on argument or range errors |
| `LockoutRuns.LostReplyInstalls` | core/platform/cache/redis_cache.c:242-268 | a set that returns an error and locks the scope |
| `LockoutRuns.OtherScopesKept` | core/platform/cache/redis_cache.c:20-26 | a call for one scope leaves every other scope's entry alone |
| `LockoutRuns.RunKeepsUntouched` | core/platform/cache/redis_cache.c:242-380 | through any run without a SET or DEL of the scope its entry stays and the clock does not go back |
| `LockoutRuns.LockIsReported` | core/platform/cache/redis_cache.c:320-363 | a check of a lockout in force never answers "unlocked", and if it answers with a deadline it is the right one |
| `LockoutRuns.NoEarlyRelease` | core/platform/cache/redis_cache.c:242-363 | in every run after a successful set, with any command outcomes, no check before the deadline reports the scope unlocked unless a SET or DEL of that scope ran |
| `LockoutRuns.CheckConfirmsExactly` | core/platform/cache/redis_cache.c:320-363 | the reply of every check of a stored lockout, for all delays and outcomes: before the deadline always locked, and confirmed if and only if time and TTL are answered, at least 500 ms remain at the TTL read, and the TTL is read at most 1500 ms after the start of the second of the server time |
| `LockoutRuns.ConfirmedIsTrue` | core/platform/cache/redis_cache.c:320-363 | whatever is in the store, a confirmed deadline is the one its text spells, its key is alive, and its expiry is within 1.5 s of the deadline but for the time the TTL took |
| `LockoutRuns.DoubtIsLocked` | core/platform/cache/redis_cache.c:320-363 | an answered check says locked if and only if the key is there; a text that is no time or a missing expiry is an error with the flag at locked |
| `LockoutRuns.LiveLockNotConfirmed` | core/platform/cache/redis_cache.c:344-351 | two live lockouts that are not confirmed: a late TTL, and the last half second |
| `LockoutRuns.ClearOutcomeExactly` | core/platform/cache/redis_cache.c:365-380 | success if and only if the DEL was answered or refused; the stored lock is removed if and only if the DEL ran; so a failed clear has removed it if and only if the reply got lost |
| `LockoutRuns.ClearReleases` | core/platform/cache/redis_cache.c:365-380 | after a clear that succeeds with the DEL not refused, through any run without a new set of the scope, every answered check says unlocked |
| `LockoutRuns.RefusedClearKeepsLock` | core/platform/cache/redis_cache.c:365-380 | a refused DEL is reported as success, and through any such run every answered check before the deadline still says locked |
| `LockoutRuns.EventYearIsKstYear` | core/platform/cache/redis_cache.c:285-286 | the truncating division gives the KST calendar year of the event |
| `LockoutRuns.EndOfYearIs` | core/platform/cache/redis_cache.c:293-307 | coverage of a year ends the day before the next year |
| `LockoutRuns.LoadedCalendar` | core/platform/cache/redis_cache.c:133-154 | a loaded calendar is ascending and inside its year |
| `LockoutRuns.MergedCalendar` | core/platform/cache/redis_cache.c:298-306 | year Y followed by year Y+1 is one strictly ascending calendar, as the early break needs |
| `LockoutRuns.OneComputation` | core/platform/cache/redis_cache.c:285-313 | load-Y-then-maybe-Y+1 equals one computation over both calendars |
| `LockoutRuns.SessionFoundExactly` | core/platform/cache/redis_cache.c:294-313 | a session is found if and only if the event year loads and a trading day is left in it, or both years load, a trading day is left in the two and they have at most 512 entries together |
| `LockoutRuns.LongCalendarsDoNotFit` | core/platform/cache/redis_cache.c:298-303 | for every event of the years 1970 to 9998: two readable calendars with a session left in the second year for which no deadline is chosen |
| `LockoutRuns.DeadlineIsAhead` | core/platform/cache/redis_cache.c:276-313 | the chosen deadline starts the least trading day after the event and exceeds the server time by more than 32395 s, so the final expiry test never fires |
| `LockoutRuns.LockedUntilNextSession` | core/platform/cache/redis_cache.c:270-363 | after a successful next-session lockout no check in any run reports "unlocked" before the start of the least trading day after the event |
| `RedisCache.Connection.Time` | core/platform/cache/redis_cache.c:39-51 | reads the server clock |
| `RedisCache.Connection.LoadCalendar` | core/platform/cache/redis_cache.c:133-154 | fills the array with the specified calendar, or fails |
| `RedisCache.Connection.SetBreakerLockout` | core/platform/cache/redis_cache.c:242-268 | store and status are those of the specification in the theorems above |
| `RedisCache.Connection.SetBreakerLockoutNextSession` | core/platform/cache/redis_cache.c:270-318 | store, status and deadline are those of the specification |
| `RedisCache.Connection.NextExpiry` | core/platform/cache/redis_cache.c:285-311 | the two-year calendar part of it, in one shared array |
| `RedisCache.Connection.IsBreakerLocked` | core/platform/cache/redis_cache.c:320-363 | flag, deadline and status are those of the specification; the store is not changed |
| `RedisCache.Connection.ClearBreakerLockout` | core/platform/cache/redis_cache.c:365-380 | store and status are those of the specification |
| `PgPipeline.DrainConforming` | core/platform/db/postgres.c:204-248 | draining conforming results completes one queued request for each, in order, with the server's outcome; no result ever lacks a request |
| `PgPipeline.SendKeepsInv` | core/platform/db/postgres.c:312-334 | a send keeps queue, sent commands and logged outcomes in correspondence |
| `PgPipeline.ServiceKeepsInv` | core/platform/db/postgres.c:278-310 | a service keeps the correspondence, and a service that reads returns OK |
| `PgPipeline.StaysReady` | core/platform/db/postgres.c:278-334 | READY is left only when PQpipelineSync itself fails; the branch for a result without a queued request is unreachable |
| `PgPipeline.RunKeepsInv` | core/platform/db/postgres.c:204-334 | the correspondence holds in every reachable state |
| `PgPipeline.ExactlyOnceInOrder` | core/platform/db/postgres.c:165-172 | in every run the callbacks are those of the accepted requests, each at most once, in acceptance order, the rest queued within capacity |
| `PgPipeline.DrainCallsFromFront` | core/platform/db/postgres.c:204-248 | callbacks follow the queue whatever the results are |
| `PgPipeline.RecoveryAtSync` | core/platform/db/postgres.c:204-248 | within a batch a request reports OK if and only if its row parses and no query of the batch up to it failed; earlier batches have no influence |
| `PgPipeline.SuccessThenFailure` | core/platform/db/postgres.c:204-248 | once a query of a batch has failed, all later requests of the batch fail |
| `PgPipeline.ParseFailureDoesNotAbort` | core/platform/db/postgres.c:225-240 | a run of the client in which a row does not parse and the next request of the batch succeeds |
| `PgPipeline.OneSyncOutstanding` | core/platform/db/postgres.c:285-323 | at most one Sync is outstanding and nothing is accepted while it is |
| `PgPipeline.NoSpin` | core/platform/db/postgres.c:204-215 | when libpq has nothing left the client expects nothing, so the drain loop ends |
| `PgPipeline.SendAcceptedExactly` | core/platform/db/postgres.c:312-334 | in every run a request is accepted if and only if the client is ready, fewer than capacity accepted requests are open, no Sync is unanswered and libpq takes the query; every other status by its own condition, with the client unchanged |
| `PgPipeline.AsksExactly` | core/platform/db/postgres.c:129-163 | a ready client asks to read if and only if a command is unanswered, to write if and only if output is pending or a Sync is due, and is idle if and only if it asks for neither |
| `PgPipeline.ServiceReportsExactly` | core/platform/db/postgres.c:278-310 | a service reports an error if and only if a libpq call that was due failed; else what was sent, answered and left to flush |
| `PgPipeline.FailureIsFinal` | core/platform/db/postgres.c:204-284 | a failed client refuses every service; a result without a request fails the client |
| `PgPipeline.ConnectStep` | core/platform/db/postgres.c:250-276 | a connecting client asks for one kind of readiness, ignores the other, and with it becomes ready if and only if libpq says OK and pipeline mode is entered, failed if and only if one of them fails |
| `PgPipeline.ServingConnects` | core/platform/db/postgres.c:250-276 | whatever readiness libpq asks for and however often, serving it up to the OK ends in a ready, idle client |
| `PgPipeline.ConnectionSucceeds` | core/platform/db/postgres.c:82-276 | from the start every sequence of answers that ends in OK can be served, and then the client is ready with nothing queued |
| `PgPipeline.ServiceDecreases` | core/platform/db/postgres.c:278-310 | services never add work and every effective one decreases a measure |
| `PgPipeline.ServicesAreBounded` | core/platform/db/postgres.c:278-310 | a run of services that ends ready has at most as many effective ones as the measure says, and the measure is zero if and only if the client is idle |
| `PgPipeline.CanReachIdle` | core/platform/db/postgres.c:129-163 | every READY, non-idle state asks for a readiness event and two services of the kind asked for can bring it to idle with every accepted request called back |
| `PgClient.PgConn.constructor` | core/platform/db/postgres.c:82-98 | an empty ring of the given depth, connecting |
| `PgClient.ConnectStart` | core/platform/db/postgres.c:82-112 | argument, memory and connection errors with what is handed out in each case; a bad connection comes out in the failed state |
| `PgClient.PgConn.SendRequest` | core/platform/db/postgres.c:312-334 | writing the tail slot appends to the abstract queue, with the specified refusals |
| `PgClient.PgConn.CompleteHead` | core/platform/db/postgres.c:165-172 | moving the head calls back and removes the front request |
| `PgClient.PgConn.DrainResults` | core/platform/db/postgres.c:204-248 | the result loop is the specified drain |
| `PgClient.PgConn.ServiceConnect` | core/platform/db/postgres.c:250-276 | connection phases as specified |
| `PgClient.PgConn.Service` | core/platform/db/postgres.c:278-310 | sync, flush, consume and drain as specified |
| `PgAdapter.SubmitKeeps` | core/apps/c_driver_adapter.c:215-253 | a submission keeps adapter and client coupled and is never refused for range |
| `PgAdapter.FinishKeeps` | core/apps/c_driver_adapter.c:167-213 | a callback belongs to the operation whose token the adapter holds |
| `PgAdapter.ReadyKeeps` | core/apps/c_driver_adapter.c:106-130 | a readiness event keeps adapter and client coupled |
| `PgAdapter.DriveKeeps` | core/apps/c_driver_adapter.c:255-270 | so does every run of the loop |
| `PgAdapter.DriveCompletesInOrder` | core/apps/c_driver_adapter.c:198-270 | submitted - completed is 1 in flight and 0 otherwise; completions are operations 0, 1, 2, ... in order, every third an exposure query and the others position queries; success means all of them, each once, OK, with a positive latency in its slot |
| `PgAdapter.SuccessMeans` | core/apps/c_driver_adapter.c:106-270 | if the loop ends without failure, no pass was late, latency slot i holds the end minus the start of operation i, and every exposure reply matched |
| `PgAdapter.NeverRefused` | core/apps/c_driver_adapter.c:255-270 | in no run of the loop does a submission meet a full queue or an outstanding Sync |
| `PgAdapter.CompletesExactly` | core/apps/c_driver_adapter.c:255-270 | from every unfailed state of the loop some legal continuation completes all operations if and only if the server has not already decided to fail the one in flight |
| `PgAdapter.SomeRunSucceeds` | core/apps/c_driver_adapter.c:255-270 | from every new connection some run of the loop completes any number of operations |
| `PgDriver.Driver.SubmitOne` | core/apps/c_driver_adapter.c:215-253 | fields, client and status are those of the specification |
| `PgDriver.Driver.FinishOperation` | core/apps/c_driver_adapter.c:167-176 | latency slot, counters and failure flag are those of the specification |
| `PgDriver.Driver.Ready` | core/apps/c_driver_adapter.c:106-130 | service and its callbacks are those of the specification |
| `PgDriver.Driver.Drive` | core/apps/c_driver_adapter.c:255-270 | the loop is the specified one and succeeds exactly without failure |
| `Backtest.AccountingIdentity` | core/src/backtest/engine.c:27-164 | at every bar portfolio value is capital plus realised pnl minus buying costs plus the open position's gain, with no assumption on prices, rates or signals |
| `Backtest.LargestAffordable` | core/src/backtest/engine.c:27-64 | every purchase takes the largest affordable count; the rounding guard never acts |
| `Backtest.AffordsExactly` | core/src/backtest/engine.c:27-64 | for all costs, cash and prices a purchase is made if and only if one share costs more than zero and at most the cash, and then of as many shares as the cash pays for and no fewer |
| `Backtest.BarTradesExactly` | core/src/backtest/engine.c:27-161 | in every run bar k trades if and only if the signal is BUY with no position and a share affordable, or SELL or CLOSE with a position; date, price, quantity, each cost as notional times its rate with tax on sales only, profit, and the cash and position after it; else nothing changes |
| `Backtest.BarSnapshotExactly` | core/src/backtest/engine.c:90-164 | snapshot k has date and price of bar k and the cash and position after it; its return leads from the value before to the value now |
| `Backtest.RunStartsExactly` | core/src/backtest/engine.c:139-143 | a run starts with the capital in cash and nothing else |
| `Backtest.AlwaysSolvent` | core/src/backtest/engine.c:27-164 | cash stays non-negative and portfolio value positive in every run |
| `Backtest.Overdraft` | core/src/backtest/engine.c:67-88 | with selling rates above 1 a round trip ends overdrawn |
| `Backtest.CashNonNegativeExactly` | core/src/backtest/engine.c:27-88 | cash is non-negative in all runs if and only if the selling rates add up to at most 1 |
| `Backtest.ReturnsCompound` | core/src/backtest/engine.c:90-109 | the daily returns compound to final value over capital |
| `Backtest.TradesAlternate` | core/src/backtest/engine.c:145-161 | trades alternate BUY, SELL with matching quantities, at most one a bar |
| `Backtest.NoLookAhead` | core/src/backtest/engine.c:146-164 | with a causal signal a run on k bars is the beginning of every longer run |
| `BacktestEngine.Engine.OpenPosition` | core/src/backtest/engine.c:27-64 | state and trade are those of the specification |
| `BacktestEngine.Engine.ClosePosition` | core/src/backtest/engine.c:67-88 | state and trade are those of the specification |
| `BacktestEngine.Engine.Snap` | core/src/backtest/engine.c:90-109 | state and snapshot are those of the specification |
| `BacktestEngine.BacktestRun` | core/src/backtest/engine.c:111-173 | trades and snapshots are those of the simulation; one trade slot a bar suffices; the argument and memory errors exactly when they apply |
| `Metrics.MaxDrawdown` | core/src/backtest/metrics.c:35-49 | the worst fall from the highest value so far, whenever no such value is zero; it is the worst of all falls from positive values if and only if peaks suffice, which they do on values that are not negative, with a result in [-100, 0], and above -100 on positive values |
| `Metrics.WorstAtBarExactly` | core/src/backtest/metrics.c:35-49 | the fall from the peak is the worst fall to a bar if and only if the bar is not negative or all positive values so far are the peak |
| `Metrics.NonNegativeSuffices` | core/src/backtest/metrics.c:35-49 | on values that are not negative, the first positive, some fall from the peak is at least as bad as every fall, and none exceeds 100 % |
| `Metrics.WorstFallExactly` | core/src/backtest/metrics.c:35-49 | the worst fall from a peak is the worst of all falls if and only if peaks suffice |
| `Metrics.DrawdownIsWorstExactly` | core/src/backtest/engine.c:27-164 | for all runs of the engine on positive prices and capital, peaks suffice if and only if the selling rates add up to at most 1 |
| `Metrics.OverdrawnRun` | core/src/backtest/engine.c:67-109 | for every higher selling rate a run of three bars in which they do not |
| `Metrics.EngineSnapshotsPositive` | core/src/backtest/engine.c:90-109 | the engine's values are positive in every valid market |
| `Metrics.AvgHoldingDays` | core/src/backtest/metrics.c:53-69 | the head/tail array is the FIFO match |
| `Metrics.HoldingIsRoundTripMean` | core/src/backtest/metrics.c:53-69 | on engine trades every SELL is matched with its own BUY, so the result is the mean round-trip length |
| `Metrics.TradesAscend` | core/src/backtest/engine.c:145-161 | on ascending dates trades are recorded in date order |
| `Metrics.TripDays` | core/src/backtest/metrics.c:53-69 | in date order the days held are the days from purchase to sale; a sale dated before its purchase counts as none |
| `Metrics.AverageOfRun` | core/src/backtest/metrics.c:53-69 | in every run over ascending dates the average times the number of round trips is the sum of the days from purchase to sale |
| `Ranking.StableSortRanks` | tools/generate_golden_decisions.py:217-220 | the reference sort lists every qualifying index once, best first, ties by index |
| `Ranking.RankingIsStableSort` | tools/generate_golden_decisions.py:217-220 | any such list is that sort |
| `Ranking.ScreenerSelect` | core/src/indicators/screener.c:27-58 | repeated maximum fills the buffer with the first `cap` of the stable sort |
| `Ranking.BestUnlisted` | core/src/indicators/screener.c:31-52 | the inner loops find the first best candidate not yet listed |
| `Ranking.CheckPortfolioDrawdown` | core/src/risk/gates.c:56-103 | the reported percentage leads from the baseline to the current equity; at the limit the picks are the first two of the stable ascending sort of valid positions, and lost more than all others by cross products; below it or without equity, none |
| `Ranking.WeakestTwo` | core/src/risk/gates.c:71-93 | the two running minima, and that no other position lost more |
| `Ranking.TopTwoIsPrefix` | tools/generate_golden_decisions.py:151-169 | the running minima are the sort's first two |
| `Ranking.PnlRecovers` | core/src/risk/gates.c:71-93 | the percentage leads from the average fill to the current price |
| `Ranking.PnlOrder` | core/src/risk/gates.c:71-93 | one percentage is below another exactly when the cross product of prices and fills is |
| `Ranking.TopTwoAreWeakest` | core/src/risk/gates.c:71-103 | the first two of the sort lost at least as much as every other position, ties by index |
| `Blending.WeightsSumToOne` | core/src/portfolio/blending.c:31-50 | normalised weights sum to one, positive total or not |
| `Blending.ScoreWithinConfidence` | core/src/portfolio/blending.c:41-69 | the absolute score is at most the confidence, which is at most 1; the final clamp changes nothing |
| `Blending.BlendIsWeightedMean` | core/src/portfolio/blending.c:15-69 | the score is the weighted mean confidence of the BUY inputs less that of the SELL inputs and the confidence that of all inputs, with equal weights where none is positive; BUY if and only if the score is above 0.15, SELL if and only if below -0.15 |
| `Blending.UnanimousBuy` | core/src/portfolio/blending.c:15-69 | where all inputs say BUY the score is the confidence |
| `Blending.OrderIrrelevant` | core/src/portfolio/blending.c:25-72 | permuting the inputs changes nothing |
| `Blending.ScaleIrrelevant` | core/src/portfolio/blending.c:25-72 | scaling all weights by a positive factor changes nothing |
| `Blending.MirrorNegates` | core/src/portfolio/blending.c:15-72 | exchanging BUY and SELL negates the score and mirrors the decision only |
| `Blending.OutputMirrors` | core/src/portfolio/blending.c:61-71 | so does the rounded output, for every rounding that treats both signs alike |
| `Blending.BlendSignals` | core/src/portfolio/blending.c:25-72 | the two loops compute the blend of these lemmas, rounded to 4 and 6 places by whatever rounding is given |
| `Blending.TwoLegsInterpolate` | core/src/portfolio/blending.c:74-93 | two legs interpolate by the ratio; a single leg decides whatever the ratio |
| `Sha256.PaddingIsLeast` | edge/driver-bench/src/main.rs:624-630 | the zero bits are the least number that section 5.1.1 of FIPS 180-4 asks for |
| `Sha256.PaddingIsInjective` | edge/driver-bench/src/main.rs:624-630 | no two messages of any length have the same padding |
| `Sha256.PadMessage` | edge/driver-bench/src/main.rs:624-630 | the padding loop terminates and gives that padding, a multiple of 64 bytes |
| `Sha256.Schedule` | edge/driver-bench/src/main.rs:650-665 | the schedule array holds W of section 6.2.2 of FIPS 180-4 |
| `Sha256.Compress` | edge/driver-bench/src/main.rs:637-690 | eight rotating variables updated in place equal the standard's recurrence on one block |
| `Sha256.ScheduleLaw` | edge/driver-bench/src/main.rs:650-665 | the schedule as section 6.2.2 of FIPS 180-4 states it: the words of the block, then sums of four |
| `Sha256.RoundLaw` | edge/driver-bench/src/main.rs:666-686 | the variables start as the hash value; a round moves them by one and gives two of them their sums modulo 2^32 |
| `Sha256.NextHashLaw` | edge/driver-bench/src/main.rs:666-690 | the variables after 64 rounds are added to the hash value word by word |
| `Sha256Words.ChooseSelects` | edge/driver-bench/src/main.rs:666-686 | the second word where the first has ones, the third where it has zeros |
| `Sha256Words.MajorityDecides` | edge/driver-bench/src/main.rs:666-686 | where two words agree, theirs; where they differ, the third |
| `Sha256Words.SumsRotate` | edge/driver-bench/src/main.rs:666-686 | the two big sums by shifts, as section 3.2 of FIPS 180-4 defines rotation |
| `Sha256Words.MixesRotateAndShift` | edge/driver-bench/src/main.rs:650-665 | the two small sums likewise |
| `Sha256Bits.WordFunctions` | edge/driver-bench/src/main.rs:650-686 | the functions used in the rounds are these on the bits of the words |
| `Sha256Bits.WordIsNumber` | edge/driver-bench/src/main.rs:650-655 | a schedule word is the number of its four bytes, most significant first |
| `Sha256Bits.PaddingReads` | edge/driver-bench/src/main.rs:624-630 | message, 0x80, zeros, and the length in bits read back as a number |
| `Sha256Bits.HexTextReads` | edge/driver-bench/src/main.rs:634-634 | digits 8i to 8i + 7 of the text are word i of the digest |
| `Sha256Constants.PrimesInOrder` | edge/driver-bench/src/main.rs:638-649 | the table of primes starts with 2 and goes on with the next prime each time |
| `Sha256Constants.RoundConstants` | edge/driver-bench/src/main.rs:638-649 | K t is the first 32 bits of the fraction of the cube root of prime t |
| `Sha256Constants.InitialHashValue` | edge/driver-bench/src/main.rs:619-623 | the initial hash value t is that of the square root of prime t |
| `Sha256.Digest` | edge/driver-bench/src/main.rs:619-633 | all blocks of the padded message in order |
| `Sha256.Sha256Hex` | edge/driver-bench/src/main.rs:619-635 | 64 hexadecimal digits of the hash |
| `Sha256.HexTextInjective` | edge/driver-bench/src/main.rs:634-634 | different digests have different texts |
| `WorkDistribution.SharesPartition` | bench/adapters/python_driver.py:27-29 | the workers' ranges follow each other, cover all iterations exactly, and differ in size by at most one |
| `WorkDistribution.WorkersTogether` | edge/driver-bench/src/main.rs:235-269 | the first n workers report what the iterations before the n-th start report, failures included |
| `WorkDistribution.KeptIsAllExactly` | bench/adapters/python_driver.py:75-99 | everything is reported if and only if no operation fails |
| `WorkDistribution.InterleavingKeeps` | bench/adapters/python_driver.py:75-99 | every interleaving of the workers appends exactly their tokens |
| `WorkDistribution.ExpectedSortedExactly` | bench/run_driver_mvp2.py:213-215 | the expected list is in text order if and only if it is empty, or the ids are in order and there are at most a million iterations |
| `WorkDistribution.SevenDigitsSortEarlier` | bench/run_driver_mvp2.py:213-215 | iteration 100001 sorts after iteration 1000000 |
| `WorkDistribution.SortedUnique` | bench/adapters/python_driver.py:113-114 | sorting has one result |
| `WorkDistribution.CompletionsMatch` | bench/adapters/python_driver.py:75-114 | for any worker count, interleaving and failures, the sorted completions are the expected list if and only if it is empty, or no operation failed, the ids are in order and there are at most a million iterations |
| `WorkDistribution.CTokens` | core/apps/c_driver_adapter.c:349-351 | the C list by index is the expected list |
| `HttpRequests.RefusedPostChangesNothing` | core/platform/http/http_client.c:166-226 | a post is accepted exactly when valid, below the limit and not failed by libcurl; refused, even after linking, it leaves no trace |
| `HttpRequests.PostAnswersExactly` | core/platform/http/http_client.c:166-226 | in every run the answer to a post: invalid, full at 64, refused by libcurl, or accepted, each by its own condition |
| `HttpRequests.LogExactly` | core/platform/http/http_client.c:84-251 | results are added by completions and by cancels that find a request and by nothing else; a completion reports its own request with the codes it came with, a cancel status 0 and transport code 42 |
| `HttpRequests.UnlinkRemoves` | core/platform/http/http_client.c:68-82 | unlinking takes out that request and no other, and counts it |
| `HttpRequests.RunKeepsInv` | core/platform/http/http_client.c:68-251 | in every run up to a return into a freed request, re-entrant callbacks included, pending is the list's length, at most 64, newest first, and every result has its own post's kind and user data and at most 1 MiB |
| `HttpRequests.RunKeepsOnce` | core/platform/http/http_client.c:84-107 | if no cancel picks a request whose callback is running, a request has completed exactly when it left the list or its callback runs |
| `HttpRequests.OnceExactly` | core/platform/http/http_client.c:228-251 | each request completes at most once if and only if no cancel picks a request whose own callback has not returned |
| `HttpRequests.SelfCancelReportsTwice` | core/platform/http/http_client.c:228-251 | a run in which it does not: post, complete, cancel from the callback; that callback can then no longer return |
| `HttpRequests.Conservation` | core/platform/http/http_client.c:84-107 | with no callback running, accepted is completed plus pending, and pending are those not completed |
| `HttpRequests.CancelPicksNewest` | core/platform/http/http_client.c:228-251 | cancel takes the most recently accepted pending request with that user data, and refuses exactly when there is none |
| `HttpRequests.BodiesAreChunks` | core/platform/http/http_client.c:30-46 | in every such run every body, pending or reported, is the concatenation of its accepted chunks |
| `HttpRequests.StepsContinueRun` | core/platform/http/http_client.c:84-107 | what the object does from a reachable state continues the run, so the theorems apply to it |
| `HttpClient.Multi.constructor` | core/platform/http/http_client.c:123-135 | an empty list |
| `HttpClient.Create` | core/platform/http/http_client.c:116-147 | the argument, memory and libcurl errors of the creation, and an empty client exactly when there is none |
| `HttpClient.Multi.UnlinkAndFree` | core/platform/http/http_client.c:68-82 | the cursor walk takes the node out of the chain and lowers pending, or leaves both |
| `HttpClient.Multi.PostJson` | core/platform/http/http_client.c:166-226 | list, counter and status are those of the specification |
| `HttpClient.Multi.ReceiveBody` | core/platform/http/http_client.c:30-46 | all bytes of a chunk are taken and appended if memory is had and the response stays within 1048576 bytes; else none are and the response stays |
| `HttpClient.Multi.Complete` | core/platform/http/http_client.c:91-104 | the callback is entered with the request's own fields |
| `HttpClient.Multi.AfterCallback` | core/platform/http/http_client.c:105-105 | the request is unlinked when the callback returns |
| `HttpClient.Multi.Cancel` | core/platform/http/http_client.c:228-248 | the walk finds the first request with the user data and enters its callback |
| `HttpClient.Multi.DrainCompletions` | core/platform/http/http_client.c:84-107 | the message loop is a legal sequence of completions and returns |
| `HttpClient.Multi.Destroy` | core/platform/http/http_client.c:149-160 | every pending request is unlinked and no callback is made |

## Left out

- HttpClient.Multi.DrainCompletions: for callbacks that do not call the client. With callbacks that do, the loop body is
  `Complete`, any calls, then `AfterCallback`; that is what the runs of `HttpRequests` cover.
- HttpRequests.RunKeepsInv: a run ends where a callback would return into a request that was freed under it; the C program
  has no defined behaviour from there on.
- PgPipeline.NoSpin: takes the results that PQgetResult returns before libpq is busy to be finitely many.
- BacktestEngine.BacktestRun: without the call that computes the metrics; drawdown and holding time are in `Metrics`.
- Metrics.MaxDrawdown: asks that no running peak is zero, where the code divides by zero; the engine's first value is
  positive, so its peaks are.
- NULL pointers, and strings with an embedded NUL.
- Floating-point rounding, how `alpha_round_dp` rounds, and overflow of 64-bit counters and epochs.
- Callbacks that call back into the PostgreSQL client while it drains.
- The SQL text, row parsing, ticker copying, and the latest-tick cache functions.
- The internals of libpq, hiredis, libcurl, libwebsockets and OpenSSL.
- The Redis half of the driver adapter, `redis_async.c` and `lws_runtime.c`: their counters would only add easy
  invariants.
- Socket and timer callbacks of the HTTP client, and how libcurl arrives at status and transport codes.
- Sharpe ratio, annual return and win rate; position sizing, market data, signal sources and rule-based exits.
- Command lines, JSON output, timing, resource measurement, statistics, trial rotation and the event-loop spike.
