# Study-time accrual and leaderboard model

This project models the time-accrual and leaderboard engine of a
study-time tracker for a Discord server (`utilities.py`). Members join and
leave study channels, and each move is logged as a "start channel" or an
"end channel" event. From the log the engine computes the hours studied in
a window. It keeps per-window leaderboards in Redis sorted sets, one set per
daily, weekly, monthly and all-time key. It also tells a member which study
role their monthly hours earn and how far away the next role is.

The model has six modules:

- `Common` holds the `Option` and `Result` wrappers.
- `Calendar` is the proleptic Gregorian calendar the `datetime` library
  implements. It converts day numbers to (year, month, day) and back, with
  Howard Hinnant's algorithms. It proves that converting a day number to a
  date and back returns the same day number, so distinct day numbers have
  distinct dates. It also proves that stepping back (day − 1) days lands on
  the first of the month.
- `Windows` holds the business-day windows:
  - where the business day, the next day, the week and the month begin, for
    a clock instant `now` and the configured offset of the business day;
  - the four leaderboard keys built from those boundaries.
- `Intervals` holds the two reductions of an event log to hours:
  - `calc_total_time` is a method with its pairing loop, proved against a
    specification function;
  - `get_total_time_for_window` is a function that follows the filtering
    and the numpy subtraction.
  The module also proves that the two agree on well-formed logs.
- `Roles` holds role resolution. `get_role_status` is a method with the
  source's scan and early `break`, proved against the first threshold not
  reached.
- `Leaderboard` holds the Redis store and the operations on it:
  - a `RankStore` class with the ZREVRANK, ZADD, ZSCORE and ZINCRBY
    commands;
  - pure functions describing each state change;
  - the methods `get_redis_rank`, `get_redis_score`, `increment_studytime`
    and `get_user_stats`.

Conventions:

- Instants are whole seconds since 1970-01-01T00:00:00 UTC.
- The business-day offset is a whole number of seconds in [0, 86400).
- Every clock read (`datetime.utcnow()`, `get_time()`) is a parameter.
- Durations in hours are exact reals: seconds / 3600.
- A leaderboard key is the datatype `WindowKey`, which stands for the key
  string: `Daily(dayStart)` for `f"{day_start}_daily"`,
  `Weekly(weekStart)`, `Monthly(month)` for `f"{month_name}_monthly"`, and
  `AllTime`.
- Redis orders a sorted set by (score, member) ascending, comparing members
  byte by byte. So ZREVRANK puts higher scores first, and among equal scores
  the lexicographically greater member first (`Leaderboard.Ahead`).

`calc_total_time` reads the month start from the clock through
`get_month_start()`, and "now" through a separate `get_time()` call.
`Intervals.CalcTotalTime` takes both values as parameters: `monthStart` is
`Windows.MonthStart(t, offset)` for the instant `t` of the first read.
`get_total_time_for_window` is treated the same way: `startFn` is the
value `get_start_fn()` returns, or `None` when the caller left
`get_start_fn` at its default. In that case the source raises a
`TypeError`, but only when the log opens with an end event.

With a four-hour offset, 2024-03-01T02:00Z lies in the business day that
began 2024-02-29T04:00Z, because 2024 is a leap year
(`Windows.LeapDayExample`).

## Model

| member | source | states |
|---|---|---|
| Calendar.CivilFromDays | utilities.py:107-110 | the calendar date of a day number, with month in 1..12 and day of month in 1..31, as `strftime("%d")` reads it |
| Calendar.DaysFromCivilInverts | utilities.py:107-110 | converting a day number to a date and back gives the same day number, so distinct day numbers have distinct dates |
| Calendar.FirstOfMonth | utilities.py:107-110 | stepping back (day of month − 1) days from any day reaches day 1 of the same year and month |
| Windows.DayStart | utilities.py:89-96 | for an offset in [0, 1 day), the day start is at or before `now`, less than a day before it, and has the offset as its time of day |
| Windows.DayStartUnique | utilities.py:89-96 | any instant with the offset as its time of day that is at or before `now` and less than a day before it is the day start, so the day start is unique |
| Windows.TomorrowStart | utilities.py:99-100 | tomorrow's start is exactly one day after the day start, strictly after `now`, at most a day after it, and at the offset's time of day |
| Windows.Weekday | utilities.py:104 | `weekday()` of an instant is between 0 (Monday) and 6 (Sunday) |
| Windows.WeekStart | utilities.py:103-104 | the week start lies 0 to 6 whole days before the day start, at the same time of day |
| Windows.WeekStartIsMonday | utilities.py:103-104 | the week start is a Monday at the offset's time of day, exactly as many days before the day start as the day start's weekday number |
| Windows.MondayExample | utilities.py:104 | day 19786 after the epoch is 2024-03-04, whose `weekday()` is 0, Monday |
| Windows.WeekStartExample | utilities.py:103-104 | the week of Wednesday 2024-03-06 starts on Monday 2024-03-04 |
| Windows.WeekStartIsLatestMonday | utilities.py:103-104 | no Monday business-day start at or before the day start is later than the week start |
| Windows.MonthStart | utilities.py:107-110 | the month start lies 0 to 30 whole days before the day start, at the same time of day |
| Windows.MonthStartIsFirstOfMonth | utilities.py:107-110 | the month start falls on day 1 of the day start's year and month at the offset's time of day, exactly (day of month − 1) days before the day start |
| Windows.GetRankCategories | utilities.py:36-44 | the keys are the daily key of the day start, the weekly key of the week start, the monthly key of the UTC month of `now` (1..12), and the constant all-time key; the four are pairwise distinct |
| Windows.DailyKeyStable | utilities.py:36-44 | any two instants within the same business day get the same daily key |
| Windows.MonthlyKeyRepeatsEachYear | utilities.py:117-118 | 2024-03-05 and 2025-03-05 have different daily keys but the same monthly key, because the year does not enter it |
| Windows.LeapDayExample | utilities.py:89-118 | at 2024-03-01T02:00Z with a 4-hour offset, the business day began on 2024-02-29 at 04:00, the month start is 2024-02-01T04:00Z, and the monthly key names March |
| Intervals.Hours | utilities.py:121-122 | hours times 3600 is the number of seconds, and the hours are non-negative exactly when the seconds are |
| Intervals.PairTo | utilities.py:144-148 | the pairing pass ends no earlier than it starts and no later than the log |
| Intervals.StridePairs | utilities.py:148-149 | the stride-2 pairing from a position fails, with an index error only, exactly when the pass runs to the end of the log over an odd number of positions |
| Intervals.CalcTotalSeconds | utilities.py:132-152 | `calc_total_time` fails, with an index error only, exactly when the log does not close with a start event and the events between the boundary events are odd in number |
| Intervals.CalcTotalTime | utilities.py:132-152 | the loop's result is the specification `CalcTotalSeconds` in hours: 0 for an empty log, the boundary charges plus the stride-2 pairs of positions, and an error where a pair reads past the log |
| Intervals.Times | utilities.py:196-197 | filtering a log by category yields no more times than there are events, and a time is among them exactly when some event of that category carries it |
| Intervals.Differences | utilities.py:198 | subtracting equal-length arrays gives each end time minus the start time at the same position |
| Intervals.Subtract | utilities.py:198 | numpy's subtraction succeeds exactly when the lengths agree or one operand has length one; the result has the broadcast length, and each element is the end time minus the start time at that position, a length-one operand standing at every position |
| Intervals.TotalTimeForWindow | utilities.py:180-204 | on a sorted log, a result is never negative, since a negative total raises `StudyTimeBelowZero`; the reduction never reads past the log; it raises for a missing start function exactly when none is given and the log opens with an end event |
| Intervals.AlternatingLogIsPaired | utilities.py:140-149 | when categories alternate, the events between a leading end and a trailing start run start, end, …, start, end |
| Intervals.PairedCounts | utilities.py:196-198 | a start/end-paired run has as many starts as ends, half its length each, so numpy subtracts them pairwise |
| Intervals.PairedStride | utilities.py:148-149 | on a paired run, the stride-2 loop sums to the end times minus the start times, without error |
| Intervals.SumOfDifferences | utilities.py:198 | summing pairwise differences is the sum of the ends minus the sum of the starts |
| Intervals.CalcAgreesWithWindow | utilities.py:180-204 | when the middle of the log is paired, both reductions compute the same total; `get_total_time_for_window` raises exactly when that total is negative |
| Intervals.StrideNonNegative | utilities.py:148-149 | on a log sorted by time, every pair the loop forms adds a non-negative amount |
| Intervals.CalcNonNegative | utilities.py:132-152 | for a sorted log whose events lie between the window start and `now`, `calc_total_time` never reports negative time |
| Intervals.WellFormedLog | utilities.py:132-152 | for a sorted, alternating log inside the window, `calc_total_time` succeeds with a non-negative total, and `get_total_time_for_window` returns the same hours without raising |
| Intervals.EmptyLog | utilities.py:133-134 | an empty log accrues zero hours under both reductions |
| Intervals.TwoHourExample | utilities.py:186-199 | end at T−2h, start at T−1h, end at T, with the window opening at T−3h, gives 2 hours: 1 from the window start and 1 from the pair |
| Intervals.EndBeforeWindowRaises | utilities.py:186-202 | an end event logged a minute before the window opens makes the total negative, which raises "study time below zero" |
| Intervals.MissingStartFunctionRaises | utilities.py:180-189 | without a start function, a log opening with an end event raises, while a log opening with a start event still gives its hours |
| Roles.BeginHoursByName | utilities.py:31-32 | the dictionary has every role name as a key, and with distinct names it maps each role to its own begin hours |
| Roles.BeginHoursByNameKeys | utilities.py:31-32 | the dictionary has no key but the role names |
| Roles.FirstAbove | utilities.py:222-227 | the scan stops at the first role whose begin hours exceed the hours: every earlier role is reached, and that role is not |
| Roles.FirstAboveUnique | utilities.py:222-227 | any position with those two properties is the stopping position |
| Roles.ScanRoles | utilities.py:218-227 | the scan leaves as current name the last role reached (the first role when none is), and as next name the first role not reached (the second role when all are); the current name is the top role's exactly when every role is reached |
| Roles.GetRoleStatus | utilities.py:218-238 | current role is the last role reached, or none below the first threshold, in which case next is the first role; next role and time to it are none exactly at the top role; otherwise time to next = next's begin hours − hours > 0 |
| Roles.ReachedRolesArePrefix | utilities.py:222-227 | with strictly increasing thresholds, a role is reached (begin hours ≤ hours, boundary included) exactly when it comes before the stopping position |
| Roles.ScholarAtBoundary | utilities.py:222-236 | with novice at 0, scholar at 10 and sage at 30, exactly 10 hours makes one a scholar, 20 hours short of sage |
| Leaderboard.Ahead | utilities.py:277 | in ZREVRANK order no member comes before itself, and of two different members one comes before the other |
| Leaderboard.RevRank | utilities.py:277 | ZREVRANK of a present member counts the members ahead of it and is less than the size of the set |
| Leaderboard.HigherScoreRanksAhead | utilities.py:277 | a member with a strictly higher score gets a strictly smaller rank |
| Leaderboard.RanksDistinct | utilities.py:277 | two different members never share a rank |
| Leaderboard.TopScoreRanksFirst | utilities.py:277 | a member scoring above every other member has rank 0 |
| Leaderboard.ZeroAmongPositiveRanksLast | utilities.py:279-281 | a member just added at zero among members who all have positive scores ranks last |
| Leaderboard.Added | utilities.py:280 | ZADD sets the member's score under the key and changes no other key |
| Leaderboard.WithMember | utilities.py:279-280 | after the lazy insert the member is present with the score it read before (0 if absent), and the key's set gains only the member |
| Leaderboard.WithMemberEffect | utilities.py:279-281 | an absent member is added at exactly 0; every other member keeps its score, every other key its set, and a second insert changes nothing |
| Leaderboard.RankStore.constructor | utilities.py:65 | a fresh store holds no sorted sets, as after `flushall` |
| Leaderboard.RankStore.ZRevRank | utilities.py:277 | the command gives the 0-based reverse rank of a present member and nothing for an absent one |
| Leaderboard.RankStore.ZAdd | utilities.py:280 | the command's new state is the store with the member set to the score |
| Leaderboard.RankStore.ZScore | utilities.py:287 | the command gives the member's score, or nothing when the member is absent |
| Leaderboard.RankStore.ZIncrBy | utilities.py:327 | the command's new state is the store with the member's score, 0 if absent, raised by the increment |
| Leaderboard.GetRedisRank | utilities.py:276-283 | the new store is the old one with the member added at zero if it was absent; the result is 1 + its reverse rank, between 1 and the size of the set |
| Leaderboard.GetRedisScore | utilities.py:286-288 | the result is the member's score under the key, and 0 when the member is absent |
| Leaderboard.Incremented | utilities.py:327 | ZINCRBY raises the member's score, read as 0 if absent, by the increment, and the key's set gains only the member |
| Leaderboard.IncrementedAll | utilities.py:326-327 | the ZINCRBY fan-out leaves every key not listed with its set unchanged |
| Leaderboard.IncrementStudytime | utilities.py:322-327 | the new store is the old one with `incr`, or the hours since `last_time` when `incr` is absent, added to the member under each listed key in turn |
| Leaderboard.IncrementedScore | utilities.py:327 | one ZINCRBY raises the member's score under its own key by the increment and under every other key by nothing |
| Leaderboard.IncrementedAllScore | utilities.py:326-327 | under every key, the member gains the increment once per occurrence of that key in the list |
| Leaderboard.IncrementedAllFrame | utilities.py:326-327 | other members keep their scores under every key, and a set gains the member, and no one else, exactly when its key is listed |
| Leaderboard.IncrementedAllDistinct | utilities.py:326-327 | with distinct keys, such as the rank categories, each listed key gains exactly the increment |
| Leaderboard.Occurrences | utilities.py:326 | a key occurs zero times exactly when it is not in the list |
| Leaderboard.GainCountsOccurrences | utilities.py:326-327 | the member's total gain under a key is the increment times that key's number of occurrences |
| Leaderboard.WithMemberAllEffect | utilities.py:294-297 | after the lazy inserts, the member is present under every visited key with its former score; a set gains the member, and no one else, exactly when its key was visited; other keys and other members are unchanged |
| Leaderboard.RevisitChangesNothing | utilities.py:294 | visiting a key a second time, as "all_time" is, leaves the store as it was |
| Leaderboard.VisitKeepsStats | utilities.py:294-298 | visiting another key, or the same key again, leaves every entry already collected equal to the store's current rank and score |
| Leaderboard.CollectStats | utilities.py:294-298 | the loop's new store is the lazy inserts of every visited key; the result has one entry per visited key, each the member's 1-based rank and score in the final store |
| Leaderboard.FourKeys | utilities.py:36-44 | four pairwise-distinct category keys form a set of four |
| Leaderboard.GetUserStats | utilities.py:291-300 | the new store is the lazy inserts over the five visits and also over the four categories alone, so the second "all_time" visit changes nothing; the stats have exactly the four category keys, each reporting the member's final rank and score |

## Left out

- `round_num` rounding is not modelled, so `time_to_next_role` and `get_redis_score` are unrounded. It depends on an environment variable and float rounding, so every property is stated on exact values.
- Configuration and environment loading are not modelled: `load_dotenv`, the hjson file, parsing `"a-b"` role hours, and the business update time. Role thresholds and the offset are parameters.
- The Faker and shortuuid test-data generators, logging setup, the heartbeat file, `kill_last_process` and the `sleep` countdown are not modelled. They are random data or file, process and terminal I/O.
- `get_guildID`, `get_engine` and `get_redis_client` are not modelled. `get_guildID` reads an environment variable. `get_engine` and `get_redis_client` construct the SQL and Redis clients. The store is the `RankStore` class instead.
- `recreate_db` is modelled only through its `flushall`, as the empty store a `RankStore` starts with. Dropping and recreating the SQL tables is not modelled.
- `get_time` is a clock read whose value is the parameter `now`. `get_num_days_this_month` and `get_earliest_start` are clock reads outside the modelled operations and are not modelled.
- `get_stats_diff` is not modelled. It only zips rounded study times in dictionary order.
- Reading the clock twice is not modelled. `get_day_start` reads it twice, and the instant can cross the business-day boundary between the reads. The model uses one instant per call.
- Timestamps and offsets with a fraction of a second are not modelled. Instants and offsets are whole seconds, so a 4.5-hour offset is 16200.
- The `datetime` year range 1..9999 is not enforced. The calendar is the unbounded proleptic Gregorian one.
- Formatting of key strings (`str(datetime)` and month names) is not modelled. It is taken to be injective, so keys are the `WindowKey` datatype.
- Intervals.TotalTimeForWindow: requires the log to be already sorted by creation time. It leaves out `sort_values`, whose order among equal timestamps is not specified, and the other pandas DataFrame mechanics.
- Intervals.CalcTotalTime: takes the month start as a parameter rather than computing `Windows.MonthStart` itself. `get_month_start()` is a clock read separate from `get_time()`.
- Roles.GetRoleStatus: requires at least two roles, and the names of the current role and, below the top role, of the next role to be keys of `role_name_to_obj`. With fewer roles, or one of those two names missing, the source raises. No other name is looked up.
- Leaderboard.IncrementStudytime: requires `incr` or `last_time` to be given. With neither, the source subtracts `None` and raises a `TypeError`.
- Redis scores are IEEE doubles; the model uses exact reals.
- Errors for a key holding another Redis type (WRONGTYPE) are not modelled.
- Concurrency is not modelled: the read-then-insert of `get_redis_rank`, the fan-out of `increment_studytime` across keys, and the `async` of `get_user_stats`. The model is sequential.
- The iteration order of the returned stats dictionary is not modelled. The result is a map.
