/**
 * Leaderboard windows: where the current business day, week and month
 * begin, and the four leaderboard keys built from them.
 *
 * Instants are whole seconds since 1970-01-01T00:00:00 UTC. A business day
 * begins `offset` seconds after UTC midnight, so an instant earlier than
 * that on its calendar day still belongs to the previous business day.
 */
module Windows {
  import opened Calendar

  /** Seconds in a day. */
  const Day: int := 86400

  /** A business-day offset the configuration can hold: less than a day after midnight. */
  predicate ValidOffset(offset: int) {
    0 <= offset < Day
  }

  /** Days since 1970-01-01 of the calendar date an instant falls on. */
  function DayNumber(t: int): int {
    t / Day
  }

  function DateOf(t: int): Date {
    CivilFromDays(DayNumber(t))
  }

  /** Python's `weekday()`: 0 for Monday, 6 for Sunday; 1970-01-01 was a Thursday. */
  function Weekday(t: int): (w: int)
    ensures 0 <= w < 7
  {
    (DayNumber(t) + 3) % 7
  }

  /** The first instant of the business day `now` falls in (get_day_start). */
  function DayStart(now: int, offset: int): (start: int)
    ensures ValidOffset(offset) ==> start <= now < start + Day && start % Day == offset
  {
    var midnight := DayNumber(now) * Day;
    if now < midnight + offset then midnight + offset - Day else midnight + offset
  }

  /** The first instant of the next business day (get_tomorrow_start). */
  function TomorrowStart(now: int, offset: int): (start: int)
    ensures ValidOffset(offset) ==> now < start <= now + Day && start % Day == offset
    ensures start - DayStart(now, offset) == Day
  {
    DayStart(now, offset) + Day
  }

  /** The business-day start on the Monday of the current week (get_week_start). */
  function WeekStart(now: int, offset: int): (start: int)
    ensures var dayStart := DayStart(now, offset);
            && 0 <= DayNumber(dayStart) - DayNumber(start) <= 6
            && start % Day == dayStart % Day
  {
    var dayStart := DayStart(now, offset);
    var back := Weekday(dayStart) % 7;
    DaysBack(dayStart, back);
    dayStart - back * Day
  }

  /** The business-day start on the first of the current month (get_month_start). */
  function MonthStart(now: int, offset: int): (start: int)
    ensures var dayStart := DayStart(now, offset);
            && 0 <= DayNumber(dayStart) - DayNumber(start) <= 30
            && start % Day == dayStart % Day
  {
    var dayStart := DayStart(now, offset);
    var back := DateOf(dayStart).day - 1;
    DaysBack(dayStart, back);
    dayStart - back * Day
  }

  /** Any instant that begins a business day and spans `now` is the day start. */
  lemma DayStartUnique(now: int, offset: int, start: int)
    requires ValidOffset(offset)
    requires start % Day == offset && start <= now < start + Day
    ensures start == DayStart(now, offset)
  {
    var other := DayStart(now, offset);
    assert start == DayNumber(start) * Day + offset;
    assert other == DayNumber(other) * Day + offset;
  }

  /** Going back `k` whole days moves the day number back by `k`. */
  lemma DaysBack(t: int, k: int)
    ensures DayNumber(t - k * Day) == DayNumber(t) - k
    ensures (t - k * Day) % Day == t % Day
  {
    assert t - k * Day == (DayNumber(t) - k) * Day + t % Day;
  }

  /**
   * The week starts on a Monday, at the business-day time of day, no more
   * than six days before the current day start; it is the latest such instant.
   */
  lemma WeekStartIsMonday(now: int, offset: int)
    requires ValidOffset(offset)
    ensures var dayStart, start := DayStart(now, offset), WeekStart(now, offset);
            && Weekday(start) == 0
            && start % Day == offset
            && DayNumber(dayStart) - DayNumber(start) == Weekday(dayStart)
  {
    var dayStart := DayStart(now, offset);
    var back := Weekday(dayStart);
    DaysBack(dayStart, back);
  }

  lemma WeekStartIsLatestMonday(now: int, offset: int, monday: int)
    requires ValidOffset(offset)
    requires monday % Day == offset && Weekday(monday) == 0
    requires monday <= DayStart(now, offset)
    ensures monday <= WeekStart(now, offset)
  {
    var dayStart := DayStart(now, offset);
    var k := DayNumber(dayStart) - DayNumber(monday);
    assert monday == dayStart - k * Day;
    var back := Weekday(dayStart);
    assert (k - back) % 7 == 0;
    assert k >= back;
    DaysBack(dayStart, back);
  }

  /**
   * The month starts at the business-day time of day on the first of the
   * month the current business day falls in.
   */
  lemma MonthStartIsFirstOfMonth(now: int, offset: int)
    requires ValidOffset(offset)
    ensures var dayStart, start := DayStart(now, offset), MonthStart(now, offset);
            && DateOf(start) == Date(DateOf(dayStart).year, DateOf(dayStart).month, 1)
            && DayNumber(start) == DaysFromCivil(DateOf(start))
            && start % Day == offset
            && DayNumber(dayStart) - DayNumber(start) == DateOf(dayStart).day - 1
  {
    var dayStart := DayStart(now, offset);
    var days := DayNumber(dayStart);
    var back := CivilFromDays(days).day - 1;
    DaysBack(dayStart, back);
    var first := DayNumber(MonthStart(now, offset));
    assert first == days - back;
    FirstOfMonth(days, first);
    DaysFromCivilInverts(first);
  }

  /** A leaderboard key; each stands for the string the store is keyed by. */
  datatype WindowKey =
    | Daily(dayStart: int)   // f"{day_start}_daily"
    | Weekly(weekStart: int) // f"{week_start}_weekly"
    | Monthly(month: int)    // f"{month_name}_monthly", month 1 (January) .. 12
    | AllTime                // "all_time"

  /** The dictionary get_rank_categories returns, one field per entry. */
  datatype RankCategories = RankCategories(daily: WindowKey, weekly: WindowKey, monthly: WindowKey, allTime: WindowKey)
  {
    /** The keys in the dictionary's order. */
    function Values(): seq<WindowKey> {
      [daily, weekly, monthly, allTime]
    }
  }

  /** The calendar month of an instant (strftime("%B") of utcnow). */
  function MonthOf(t: int): int {
    DateOf(t).month
  }

  /**
   * The current leaderboard keys. The monthly key names the UTC calendar month
   * of `now` alone: neither the business-day offset nor the year enters it.
   */
  function GetRankCategories(now: int, offset: int): (c: RankCategories)
    ensures c.daily == Daily(DayStart(now, offset)) && c.weekly == Weekly(WeekStart(now, offset))
    ensures c.monthly == Monthly(MonthOf(now)) && 1 <= c.monthly.month <= 12
    ensures c.allTime == AllTime
    ensures forall i, j :: 0 <= i < j < |c.Values()| ==> c.Values()[i] != c.Values()[j]
  {
    RankCategories(Daily(DayStart(now, offset)), Weekly(WeekStart(now, offset)), Monthly(MonthOf(now)), AllTime)
  }

  /** Two instants in the same business day share the daily key. */
  lemma DailyKeyStable(now: int, later: int, offset: int)
    requires ValidOffset(offset)
    requires DayStart(now, offset) <= later < DayStart(now, offset) + Day
    ensures GetRankCategories(later, offset).daily == GetRankCategories(now, offset).daily
  {
    DayStartUnique(later, offset, DayStart(now, offset));
  }

  /** 2024-03-01T02:00:00Z with a four-hour offset: the business day began on 29 February. */
  lemma LeapDayExample()
    ensures DayStart(1709258400, 14400) == 1709179200
    ensures DateOf(1709179200) == Date(2024, 2, 29)
    ensures MonthStart(1709258400, 14400) == 1706760000
    ensures DateOf(1706760000) == Date(2024, 2, 1)
    ensures GetRankCategories(1709258400, 14400).monthly == Monthly(3)
  {
    CivilFromDaysAt(19782, 5, 8765, 23, 365, 11);
    assert DayStart(1709258400, 14400) == 1709179200;
    assert DateOf(1709179200) == Date(2024, 2, 29);
    CivilFromDaysAt(19754, 5, 8737, 23, 337, 11);
    CivilFromDaysAt(19783, 5, 8766, 24, 0, 0);
  }

  /** Day 19786 after the epoch is 2024-03-04, a Monday. */
  lemma MondayExample()
    ensures DateOf(1709510400) == Date(2024, 3, 4)
    ensures Weekday(1709510400) == 0
  {
    assert DayNumber(1709510400) == 19786;
    assert Weekday(1709510400) == 0;
    CivilFromDaysAt(19786, 5, 8769, 24, 3, 0);
  }

  /** The week of Wednesday 2024-03-06 starts on Monday 2024-03-04. */
  lemma WeekStartExample()
    ensures WeekStart(1709726400, 0) == 1709510400
  {
    assert DayStart(1709726400, 0) == 1709683200;
    assert DayNumber(1709683200) == 19788;
  }

  /** 2024-03-05 and 2025-03-05: different days, one monthly key. */
  lemma MonthlyKeyRepeatsEachYear()
    ensures GetRankCategories(1709596800, 0).daily != GetRankCategories(1741132800, 0).daily
    ensures GetRankCategories(1709596800, 0).monthly == GetRankCategories(1741132800, 0).monthly
  {
    CivilFromDaysAt(19787, 5, 8770, 24, 4, 0);
    CivilFromDaysAt(20152, 5, 9135, 25, 4, 0);
  }
}
