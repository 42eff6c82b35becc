/**
 The billing calendar of the Firecrawl keys (`app/firecrawl_keys.py`): which period a date is
 in, and when the next one starts. Years are unbounded.
 */
module CreditCalendar {

  datatype Date = Date(year: int, month: int, day: int)

  predicate LeapYear(year: int) {
    year % 4 == 0 && (year % 100 != 0 || year % 400 == 0)
  }

  function DaysInMonth(year: int, month: int): int {
    if month == 2 then (if LeapYear(year) then 29 else 28)
    else if month in {4, 6, 9, 11} then 30
    else 31
  }

  predicate Valid(d: Date) {
    1 <= d.month <= 12 && 1 <= d.day <= DaysInMonth(d.year, d.month)
  }

  /** `HS_FIRECRAWL_KEY_RESET_DAY` is clamped to this range. */
  predicate ValidResetDay(resetDay: int) {
    1 <= resetDay <= 28
  }

  predicate Before(a: Date, b: Date) {
    a.year < b.year || (a.year == b.year && (a.month < b.month || (a.month == b.month && a.day < b.day)))
  }

  function Min(a: int, b: int): int {
    if a < b then a else b
  }

  function StartIn(year: int, month: int, resetDay: int): Date {
    Date(year, month, Min(resetDay, DaysInMonth(year, month)))
  }

  /** `current_credit_period_id`: the start of the period that holds the date. */
  function CurrentPeriod(d: Date, resetDay: int): Date {
    if resetDay <= d.day then StartIn(d.year, d.month, resetDay)
    else if d.month == 1 then StartIn(d.year - 1, 12, resetDay)
    else StartIn(d.year, d.month - 1, resetDay)
  }

  /** `next_credit_period_id`: the start of the period after that. */
  function NextPeriod(d: Date, resetDay: int): Date {
    var start := CurrentPeriod(d, resetDay);
    if start.month == 12 then StartIn(start.year + 1, 1, resetDay)
    else StartIn(start.year, start.month + 1, resetDay)
  }

  /** The day after. */
  function NextDay(d: Date): Date {
    if d.day < DaysInMonth(d.year, d.month) then d.(day := d.day + 1)
    else if d.month < 12 then Date(d.year, d.month + 1, 1)
    else Date(d.year + 1, 1, 1)
  }

  /** Every date lies in its own period, [current, next), and both ends are real dates. */
  lemma DateLiesInItsPeriod(d: Date, resetDay: int)
    requires Valid(d) && ValidResetDay(resetDay)
    ensures Valid(CurrentPeriod(d, resetDay)) && Valid(NextPeriod(d, resetDay))
    ensures !Before(d, CurrentPeriod(d, resetDay)) && Before(d, NextPeriod(d, resetDay))
  {
  }

  /** The period of the next start is the next period: periods follow each other without a gap. */
  lemma PeriodsAreAdjacent(d: Date, resetDay: int)
    requires Valid(d) && ValidResetDay(resetDay)
    ensures CurrentPeriod(NextPeriod(d, resetDay), resetDay) == NextPeriod(d, resetDay)
    ensures CurrentPeriod(CurrentPeriod(d, resetDay), resetDay) == CurrentPeriod(d, resetDay)
  {
  }

  /** Two dates share a period exactly when one lies between the ends of the other's period. */
  lemma PeriodsPartitionTheCalendar(d: Date, e: Date, resetDay: int)
    requires Valid(d) && Valid(e) && ValidResetDay(resetDay)
    ensures CurrentPeriod(e, resetDay) == CurrentPeriod(d, resetDay) <==>
            !Before(e, CurrentPeriod(d, resetDay)) && Before(e, NextPeriod(d, resetDay))
  {
    DateLiesInItsPeriod(d, resetDay);
    DateLiesInItsPeriod(e, resetDay);
  }

  /** Day by day, leap days and year ends included, the period changes on reset days and on no other. */
  lemma PeriodChangesOnResetDayOnly(d: Date, resetDay: int)
    requires Valid(d) && ValidResetDay(resetDay)
    ensures Valid(NextDay(d)) && Before(d, NextDay(d))
    ensures NextDay(d).day == resetDay ==> CurrentPeriod(NextDay(d), resetDay) == NextDay(d) == NextPeriod(d, resetDay)
    ensures NextDay(d).day != resetDay ==> CurrentPeriod(NextDay(d), resetDay) == CurrentPeriod(d, resetDay)
  {
  }

  function Later(d: Date, days: nat): Date
    decreases days
  {
    if days == 0 then d else NextDay(Later(d, days - 1))
  }

  /**
   Counting on from a period's start, the first start one meets is that of the next period, and
   every day before it still belongs to this one.
   */
  lemma {:induction false} PeriodLastsUntilNextStart(d: Date, resetDay: int, days: nat)
    requires Valid(d) && ValidResetDay(resetDay) && CurrentPeriod(d, resetDay) == d
    requires forall k :: 0 < k < days ==> Later(d, k).day != resetDay
    ensures Valid(Later(d, days))
    ensures days > 0 && Later(d, days).day == resetDay ==> Later(d, days) == NextPeriod(d, resetDay)
    ensures days == 0 || Later(d, days).day != resetDay ==> CurrentPeriod(Later(d, days), resetDay) == d
  {
    if days > 0 {
      PeriodLastsUntilNextStart(d, resetDay, days - 1);
      PeriodChangesOnResetDayOnly(Later(d, days - 1), resetDay);
      assert CurrentPeriod(Later(d, days - 1), resetDay) == d;
    }
  }

  // ----- the calendar itself -------------------------------------------------------

  /** Every fourth year is a leap year, but for the centuries that four hundred does not divide. */
  lemma LeapYearsAre(year: int)
    ensures LeapYear(year) <==> year % 4 == 0 && (year % 100 == 0 ==> year % 400 == 0)
    ensures LeapYear(year) <==> LeapYear(year + 400)
    ensures !LeapYear(1900) && LeapYear(2000) && LeapYear(2024) && !LeapYear(2025) && !LeapYear(2100)
  {
  }

  /** Months have 31 days, but for four of 30 and February of 28, or 29 in a leap year. */
  lemma MonthsAre(year: int)
    ensures forall month :: month in {1, 3, 5, 7, 8, 10, 12} ==> DaysInMonth(year, month) == 31
    ensures forall month :: month in {4, 6, 9, 11} ==> DaysInMonth(year, month) == 30
    ensures DaysInMonth(year, 2) == if year % 4 == 0 && (year % 100 != 0 || year % 400 == 0) then 29 else 28
  {
  }

  function DaysUpTo(year: int, month: nat): int {
    if month == 0 then 0 else DaysUpTo(year, month - 1) + DaysInMonth(year, month)
  }

  /** A year has 365 days, and a leap year 366. */
  lemma YearsAre(year: int)
    ensures DaysUpTo(year, 12) == if LeapYear(year) then 366 else 365
  {
    assert DaysUpTo(year, 1) == 31;
    assert DaysUpTo(year, 2) == 31 + DaysInMonth(year, 2);
    assert DaysUpTo(year, 4) == DaysUpTo(year, 3) + 30 == DaysUpTo(year, 2) + 61;
    assert DaysUpTo(year, 6) == DaysUpTo(year, 5) + 30 == DaysUpTo(year, 4) + 61;
    assert DaysUpTo(year, 8) == DaysUpTo(year, 7) + 31 == DaysUpTo(year, 6) + 62;
    assert DaysUpTo(year, 10) == DaysUpTo(year, 9) + 31 == DaysUpTo(year, 8) + 61;
  }
}
