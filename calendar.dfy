/**
 * The proleptic Gregorian calendar, as Python's `datetime` uses it: the
 * conversion from a day number (days since 1970-01-01) to a civil date and
 * back, after Howard Hinnant's `civil_from_days` and `days_from_civil`.
 *
 * Days are counted in 400-year eras that begin on a 1 March, so that the leap
 * day is the last day of each era year; months are numbered 0 (March) to
 * 11 (February) inside an era year.
 */
module Calendar {

  datatype Date = Date(year: int, month: int, day: int)

  /** Days in 400 Gregorian years. */
  const DaysPerEra: int := 146097

  /** Days from 0000-03-01 to 1970-01-01. */
  const EpochShift: int := 719468

  /** Days from the first 1 March of an era to the 1 March of its year `yoe`. */
  function YearStart(yoe: int): int {
    365 * yoe + yoe / 4 - yoe / 100
  }

  /** 365 times the era year of day `doe`, give or take less than 365. */
  function YearIndex(doe: int): int {
    doe - doe / 1460 + doe / 36524 - doe / 146096
  }

  function YearOfEra(doe: int): int {
    YearIndex(doe) / 365
  }

  function DayOfYear(doe: int): int {
    doe - YearStart(YearOfEra(doe))
  }

  /** The month (0 = March, ..., 11 = February) of day `doy` of an era year. */
  function MonthIndex(doy: int): int {
    (5 * doy + 2) / 153
  }

  /** Days from 1 March to the first day of month `mp` (0 = March). */
  function MonthOffset(mp: int): int {
    (153 * mp + 2) / 5
  }

  /** The civil date of day number `days`. */
  function CivilFromDays(days: int): (d: Date)
    ensures 1 <= d.month <= 12 && 1 <= d.day <= 31
  {
    var z := days + EpochShift;
    CivilInEra(z / DaysPerEra, z % DaysPerEra)
  }

  /** The civil date of day `doe` of era `era`. */
  function CivilInEra(era: int, doe: int): (d: Date)
    requires 0 <= doe < DaysPerEra
    ensures 1 <= d.month <= 12 && 1 <= d.day <= 31
  {
    DayOfYearBounds(doe);
    CivilInYear(era, YearOfEra(doe), DayOfYear(doe))
  }

  /** The civil date of day `doy` (0 = 1 March) of year `yoe` of era `era`. */
  function CivilInYear(era: int, yoe: int, doy: int): (d: Date)
    requires 0 <= doy <= 365
    ensures 1 <= d.month <= 12 && 1 <= d.day <= 31
  {
    var mp := MonthIndex(doy);
    MonthOfDay(doy);
    var m := if mp < 10 then mp + 3 else mp - 9;
    Date(yoe + era * 400 + (if m <= 2 then 1 else 0), m, doy - MonthOffset(mp) + 1)
  }

  /** The day number of a civil date. */
  function DaysFromCivil(date: Date): int {
    var y := if date.month <= 2 then date.year - 1 else date.year;
    var era := y / 400;
    var yoe := y - era * 400;
    var mp := if date.month > 2 then date.month - 3 else date.month + 9;
    var doy := MonthOffset(mp) + date.day - 1;
    era * DaysPerEra + YearStart(yoe) + doy - EpochShift
  }

  lemma YearIndexMonotone(a: int, b: int)
    requires 0 <= a <= b
    ensures YearIndex(a) <= YearIndex(b)
  {
    // the first two terms: the quotient by 1460 grows no faster than its dividend
    assert b / 1460 - a / 1460 <= b - a;
    // the last two: a quotient by 146096 is the quotient by 36524, divided by 4
    var ca, cb := a / 36524, b / 36524;
    assert ca <= cb;
    QuotientOfQuotient(a);
    QuotientOfQuotient(b);
    assert ca / 4 - cb / 4 <= 0;
    assert cb / 4 - ca / 4 <= cb - ca;
  }

  lemma QuotientOfQuotient(x: int)
    requires 0 <= x
    ensures x / 146096 == (x / 36524) / 4
  {
    var c := x / 36524;
    var k := c / 4;
    assert x == 146096 * k + 36524 * (c % 4) + x % 36524;
  }

  /** Splits an era year as 100 p + 4 q + r. */
  lemma YearStartSplit(y: int) returns (p: int, q: int, r: int)
    requires 0 <= y <= 399
    ensures 0 <= p <= 3 && 0 <= q <= 24 && 0 <= r <= 3
    ensures y == 100 * p + 4 * q + r
    ensures YearStart(y) == 365 * y + 24 * p + q
  {
    p := y / 100;
    q := (y % 100) / 4;
    r := y % 4;
    assert y / 4 == 25 * p + q;
  }

  lemma YearIndexAtYearStart(y: int)
    requires 0 <= y <= 399
    ensures YearIndex(YearStart(y)) == 365 * y
  {
    var p, q, r := YearStartSplit(y);
    var x := YearStart(y);
    assert x == 1460 * (25 * p + q) + (365 * r + 24 * p + q);
    assert x / 1460 == 25 * p + q;
    assert x == 36524 * p + (1461 * q + 365 * r);
    assert x / 36524 == p;
    assert x / 146096 == 0;
  }

  lemma YearIndexBeforeYearStart(y: int)
    requires 1 <= y <= 399
    ensures YearIndex(YearStart(y) - 1) < 365 * y
  {
    var p, q, r := YearStartSplit(y);
    var x := YearStart(y) - 1;
    assert x == 1460 * (25 * p + q) + (365 * r + 24 * p + q - 1);
    assert x / 1460 == 25 * p + q;
    assert x / 146096 == 0;
    if q == 0 && r == 0 {
      assert x == 36524 * (p - 1) + 36523;
      assert x / 36524 == p - 1;
    } else {
      assert x == 36524 * p + (1461 * q + 365 * r - 1);
      assert x / 36524 == p;
    }
  }

  /** Every day of an era lies in one of its 400 years, at most 366 days in. */
  lemma DayOfYearBounds(doe: int)
    requires 0 <= doe < DaysPerEra
    ensures 0 <= YearOfEra(doe) <= 399
    ensures 0 <= DayOfYear(doe) <= 365
  {
    var y := YearOfEra(doe);
    YearIndexMonotone(0, doe);
    YearIndexMonotone(doe, 146096);
    assert YearIndex(146096) == 145999;
    if 1 <= y && doe < YearStart(y) {
      YearIndexMonotone(doe, YearStart(y) - 1);
      YearIndexBeforeYearStart(y);
      assert false;
    }
    if y <= 398 {
      if doe >= YearStart(y + 1) {
        YearIndexMonotone(YearStart(y + 1), doe);
        YearIndexAtYearStart(y + 1);
        assert false;
      }
      assert YearStart(y + 1) - YearStart(y) <= 366;
    }
  }

  /** A day between the start of its year and itself is in the same year. */
  lemma YearOfEraStable(doe: int, earlier: int)
    requires 0 <= doe < DaysPerEra
    requires YearStart(YearOfEra(doe)) <= earlier <= doe
    ensures YearOfEra(earlier) == YearOfEra(doe)
  {
    var y := YearOfEra(doe);
    DayOfYearBounds(doe);
    YearIndexAtYearStart(y);
    YearIndexMonotone(YearStart(y), earlier);
    YearIndexMonotone(earlier, doe);
  }

  /** The month of a day of the year, and how far into that month it lies. */
  lemma MonthOfDay(doy: int)
    requires 0 <= doy <= 365
    ensures 0 <= MonthIndex(doy) <= 11
    ensures 0 <= doy - MonthOffset(MonthIndex(doy)) <= 30
    ensures MonthIndex(MonthOffset(MonthIndex(doy))) == MonthIndex(doy)
  {
    var mp := MonthIndex(doy);
    assert 153 * mp <= 5 * doy + 2 < 153 * mp + 153;
    MonthOffsetOfMonth(mp);
  }

  lemma MonthOffsetOfMonth(mp: int)
    requires 0 <= mp <= 11
    ensures MonthIndex(MonthOffset(mp)) == mp
    ensures 0 <= MonthOffset(mp) && 5 * MonthOffset(mp) <= 153 * mp + 2 < 5 * MonthOffset(mp) + 5
  {
    if mp == 0 {} else if mp == 1 {} else if mp == 2 {} else if mp == 3 {}
    else if mp == 4 {} else if mp == 5 {} else if mp == 6 {} else if mp == 7 {}
    else if mp == 8 {} else if mp == 9 {} else if mp == 10 {} else {}
  }

  /**
   * Going back (day of month - 1) days from any day lands on the first of
   * the same month of the same year.
   */
  lemma FirstOfMonth(days: int, first: int)
    requires first == days - (CivilFromDays(days).day - 1)
    ensures var d := CivilFromDays(days);
            CivilFromDays(first) == Date(d.year, d.month, 1)
  {
    var z := days + EpochShift;
    var era, doe := z / DaysPerEra, z % DaysPerEra;
    CivilOfEraSplit(days, era, doe);
    FirstOfMonthInEra(era, doe);
    CivilOfEraSplit(first, era, doe - (days - first));
  }

  /** CivilFromDays through any split of a day count into era and day of era. */
  lemma CivilOfEraSplit(days: int, era: int, doe: int)
    requires 0 <= doe < DaysPerEra && days + EpochShift == era * DaysPerEra + doe
    ensures CivilFromDays(days) == CivilInEra(era, doe)
  {
    var z := days + EpochShift;
    assert z / DaysPerEra == era && z % DaysPerEra == doe;
  }

  lemma FirstOfMonthInEra(era: int, doe: int)
    requires 0 <= doe < DaysPerEra
    ensures var d := CivilInEra(era, doe);
            0 <= d.day - 1 <= doe &&
            CivilInEra(era, doe - (d.day - 1)) == Date(d.year, d.month, 1)
  {
    DayOfYearBounds(doe);
    var yoe, doy := YearOfEra(doe), DayOfYear(doe);
    var d := CivilInYear(era, yoe, doy);
    FirstOfMonthInYear(era, yoe, doy);
    SameYear(era, doe, doe - (d.day - 1));
  }

  /** The civil date of an earlier day of the same era year. */
  lemma SameYear(era: int, doe: int, earlier: int)
    requires 0 <= doe < DaysPerEra
    requires YearStart(YearOfEra(doe)) <= earlier <= doe
    ensures (DayOfYearBounds(doe);
             CivilInEra(era, earlier) == CivilInYear(era, YearOfEra(doe), earlier - YearStart(YearOfEra(doe))))
  {
    YearOfEraStable(doe, earlier);
  }

  lemma FirstOfMonthInYear(era: int, yoe: int, doy: int)
    requires 0 <= doy <= 365
    ensures var d := CivilInYear(era, yoe, doy);
            0 <= d.day - 1 <= doy &&
            CivilInYear(era, yoe, doy - (d.day - 1)) == Date(d.year, d.month, 1)
  {
    MonthOfDay(doy);
    MonthOffsetOfMonth(MonthIndex(doy));
  }

  /** DaysFromCivil undoes CivilFromDays. */
  lemma DaysFromCivilInverts(days: int)
    ensures DaysFromCivil(CivilFromDays(days)) == days
  {
    var z := days + EpochShift;
    var era, doe := z / DaysPerEra, z % DaysPerEra;
    DaysFromCivilInvertsInEra(era, doe);
  }

  lemma DaysFromCivilInvertsInEra(era: int, doe: int)
    requires 0 <= doe < DaysPerEra
    ensures DaysFromCivil(CivilInEra(era, doe)) == era * DaysPerEra + doe - EpochShift
  {
    DayOfYearBounds(doe);
    DaysFromCivilInvertsInYear(era, YearOfEra(doe), DayOfYear(doe));
  }

  lemma DaysFromCivilInvertsInYear(era: int, yoe: int, doy: int)
    requires 0 <= yoe <= 399 && 0 <= doy <= 365
    ensures DaysFromCivil(CivilInYear(era, yoe, doy)) == era * DaysPerEra + YearStart(yoe) + doy - EpochShift
  {
    MonthOfDay(doy);
    var y := yoe + era * 400;
    assert y / 400 == era && y - era * 400 == yoe;
  }

  /** Evaluates CivilFromDays one step at a time, for concrete days. */
  lemma CivilFromDaysAt(days: int, era: int, doe: int, yoe: int, doy: int, mp: int)
    requires days + EpochShift == era * DaysPerEra + doe && 0 <= doe < DaysPerEra
    requires YearIndex(doe) / 365 == yoe && doe - YearStart(yoe) == doy
    requires 0 <= doy <= 365 && MonthIndex(doy) == mp
    ensures var m := if mp < 10 then mp + 3 else mp - 9;
            CivilFromDays(days) == Date(yoe + era * 400 + (if m <= 2 then 1 else 0), m, doy - MonthOffset(mp) + 1)
  {
    CivilOfEraSplit(days, era, doe);
  }
}
