/**
 * The `startOfMonth(for:)` and `endOfMonth(for:)` extensions on `Calendar`
 * (Sources/Internal/Extensions/Calendar+Extension.swift).
 *
 * Both build a date through a Foundation call that may fail and fall back to a
 * safe default. The calendar's answer is an explicit `Option` parameter of the
 * `...Or` functions, so the fallback path is part of the model; the plain
 * functions pass the answer Foundation gives for the Gregorian calendar.
 */
module CalendarExt {
  import opened Wrappers
  import opened Gregorian

  /** What `date(from: dateComponents([.year, .month], from: t))` yields: midnight of the first of t's month. */
  function FirstOfMonth(t: Instant): (r: Instant)
    ensures DayOf(r) == MonthStart(MonthIndexOf(t)) && TimeOfDay(r) == 0
  {
    AtDay(MonthStart(MonthIndexOf(t)))
  }

  /** `startOfMonth(for: t)` when building the first of the month gave `built`. */
  function StartOfMonthOr(t: Instant, built: Option<Instant>): (r: Instant)
    ensures built.Some? ==> r == built.value
    ensures built.None? ==> r <= t && SameDay(r, t) && TimeOfDay(r) == 0
  {
    match built
    case Some(first) => first
    case None => StartOfDay(t)
  }

  /** `startOfMonth(for: t)`: midnight of day 1 of t's year and month. */
  function StartOfMonth(t: Instant): (r: Instant)
    ensures r <= t && TimeOfDay(r) == 0
    ensures SameMonth(r, t)
    ensures DayOf(r) == MonthStart(MonthIndexOf(t))
    ensures ToCivil(DayOf(r)) == Civil(YearComponent(t), MonthComponent(t), 1)
  {
    var mi := MonthIndexOf(t);
    MonthStartStep(mi);
    MonthOfUnique(MonthStart(mi), mi);
    StartOfMonthOr(t, Some(FirstOfMonth(t)))
  }

  /**
   * `endOfMonth(for: t)` when adding one month and minus one day to the
   * month's start gave `added`. The fallback, the month's start, stays
   * within t's month, as the correct answer does: either way the result is
   * midnight of a day of t's month no later than its last day.
   */
  function EndOfMonthOr(t: Instant, added: Option<Instant>): (r: Instant)
    ensures added.Some? ==> r == added.value
    ensures added.None? ==> DayOf(r) == MonthStart(MonthIndexOf(t))
    ensures added.None? || added == Some(AddDays(AddMonths(StartOfMonth(t), 1), -1)) ==>
      && SameMonth(r, t) && TimeOfDay(r) == 0
      && DayOf(r) <= MonthStart(MonthIndexOf(t)) + DaysInMonthAt(t) - 1
  {
    var monthStart := StartOfMonth(t);
    LastDayOfMonth(t);
    match added
    case Some(end) => end
    case None => monthStart
  }

  /** `endOfMonth(for: t)`: midnight of the last day of t's month. */
  function EndOfMonth(t: Instant): (r: Instant)
    ensures TimeOfDay(r) == 0 && SameMonth(r, t)
    ensures DayOf(r) == MonthStart(MonthIndexOf(t)) + DaysInMonthAt(t) - 1
    ensures ToCivil(DayOf(r)) == Civil(YearComponent(t), MonthComponent(t), DaysInMonthAt(t))
  {
    LastDayOfMonth(t);
    EndOfMonthOr(t, Some(AddDays(AddMonths(StartOfMonth(t), 1), -1)))
  }

  lemma LastDayOfMonth(t: Instant)
    ensures var r := AddDays(AddMonths(StartOfMonth(t), 1), -1);
      && TimeOfDay(r) == 0
      && DayOf(r) == MonthStart(MonthIndexOf(t)) + DaysInMonthAt(t) - 1
      && MonthIndexOf(r) == MonthIndexOf(t)
      && ToCivil(DayOf(r)) == Civil(YearComponent(t), MonthComponent(t), DaysInMonthAt(t))
  {
    var monthStart := StartOfMonth(t);
    var mi := MonthIndexOf(t);
    var next := AddMonths(monthStart, 1);
    AddMonthsDay(monthStart, 1);
    MonthStartStep(mi);
    assert DayOf(next) == MonthStart(mi + 1) && TimeOfDay(next) == 0;
    AddDaysDay(next, -1);
    Components(t);
    CivilAt(MonthStart(mi) + DaysInMonth(mi) - 1, mi, DaysInMonth(mi));
  }

  /** `startOfMonth` is idempotent, and at day granularity a date lies between the start and the end of its month. */
  lemma MonthBracket(t: Instant)
    ensures StartOfMonth(StartOfMonth(t)) == StartOfMonth(t)
    ensures DayOf(StartOfMonth(t)) <= DayOf(t) <= DayOf(EndOfMonth(t))
  {
  }
}
