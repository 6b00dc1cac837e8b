/**
 * The older view model (Sources/CalendarViewModel.swift): a window of three
 * consecutive months that slides by one month per move, whatever the
 * requested distance and whatever the bounds, an unconditional `selectDate`,
 * and a month grid of always 42 cells that starts on a Sunday.
 */
module LegacyCalendar {
  import opened Wrappers
  import opened Gregorian
  import opened CalendarExt
  import opened Grid
  import opened Navigation

  // ---------------------------------------------------------------------
  // Month starts and the window

  /** Midnight of the first day of the month with index `mi`. */
  function MonthAt(mi: int): (t: Instant)
    ensures DayOf(t) == MonthStart(mi) && TimeOfDay(t) == 0
  {
    AtDay(MonthStart(mi))
  }

  /** The first day of a month lies in that month. */
  lemma MonthAtIndex(mi: int)
    ensures MonthIndexOf(MonthAt(mi)) == mi
  {
    MonthStartStep(mi);
    MonthOfUnique(MonthStart(mi), mi);
  }

  /** `startOfMonth(for: t)` is the first day of t's month. */
  lemma StartOfMonthIsMonthAt(t: Instant)
    ensures StartOfMonth(t) == MonthAt(MonthIndexOf(t))
  {
    var r := StartOfMonth(t);
    assert r == DayOf(r) * SecondsPerDay + TimeOfDay(r);
  }

  /** From the first day of a month, adding `k` months reaches the first day of the month `k` on. */
  lemma AddMonthsAt(mi: int, k: int)
    ensures AddMonths(MonthAt(mi), k) == MonthAt(mi + k)
  {
    MonthAtIndex(mi);
    assert ClampedDayOffset(MonthAt(mi), k) == 0;
  }

  /** The three displayed months centred on the month with index `mi`. */
  function Window(mi: int): (w: seq<Instant>)
    ensures |w| == 3 && w[1] == MonthAt(mi)
  {
    [MonthAt(mi - 1), MonthAt(mi), MonthAt(mi + 1)]
  }

  /** The window around a date: the month before its month, its month, and the month after. */
  lemma WindowOfDate(t: Instant)
    ensures Window(MonthIndexOf(t)) == [AddMonths(StartOfMonth(t), -1), StartOfMonth(t), AddMonths(StartOfMonth(t), 1)]
  {
    var mi := MonthIndexOf(t);
    StartOfMonthIsMonthAt(t);
    AddMonthsAt(mi, -1);
    AddMonthsAt(mi, 1);
  }

  /**
   * `moveMonth(by:)` on the window: a positive value drops the first month
   * and appends the one after the last; any other value drops the last and
   * prepends the one before the first.
   */
  function Shifted(months: seq<Instant>, value: int): (r: seq<Instant>)
    requires |months| == 3
    ensures |r| == 3
  {
    if value > 0 then months[1..] + [AddMonths(months[2], 1)]
    else [AddMonths(months[0], -1)] + months[..2]
  }

  /**
   * The window stays three consecutive months and its centre moves exactly
   * one month: forward for a positive value, back for zero or a negative
   * one, however large the value.
   */
  lemma ShiftSlides(mi: int, value: int)
    ensures Shifted(Window(mi), value) == Window(mi + if value > 0 then 1 else -1)
  {
    if value > 0 {
      ShiftForward(mi, value);
    } else {
      ShiftBack(mi, value);
    }
  }

  lemma ShiftForward(mi: int, value: int)
    requires value > 0
    ensures Shifted(Window(mi), value) == Window(mi + 1)
  {
    var w := Window(mi);
    var last := AddMonths(w[2], 1);
    AddMonthsAt(mi + 1, 1);
    assert last == MonthAt(mi + 2);
    assert Shifted(w, value) == w[1..] + [last];
    assert w[1..] == [MonthAt(mi), MonthAt(mi + 1)];
  }

  lemma ShiftBack(mi: int, value: int)
    requires value <= 0
    ensures Shifted(Window(mi), value) == Window(mi - 1)
  {
    var w := Window(mi);
    var first := AddMonths(w[0], -1);
    AddMonthsAt(mi - 1, -1);
    assert first == MonthAt(mi - 2);
    assert Shifted(w, value) == [first] + w[..2];
    assert w[..2] == [MonthAt(mi - 1), MonthAt(mi)];
  }

  // ---------------------------------------------------------------------
  // The 42-cell month grid

  /** Number of days shown before day 1: the weekday of the first of the month, counted from Sunday. */
  function LeadingDays(mi: int): (lead: int)
    ensures 0 <= lead <= 6
  {
    Weekday(MonthStart(mi)) - 1
  }

  /**
   * Cell `i` of the grid for the month with index `mi`: the day `i` places
   * after the Sunday that starts the grid. Only days of the month carry the
   * selection and today flags; the others keep the defaults.
   */
  function LegacyCell(mi: int, selected: Option<Instant>, now: Instant, i: int): CalendarDate
  {
    var date := AtDay(MonthStart(mi) - LeadingDays(mi) + i);
    if LeadingDays(mi) <= i < LeadingDays(mi) + DaysInMonth(mi) then
      CalendarDate(date, selected.Some? && SameDay(selected.value, date), SameDay(date, now), true)
    else CalendarDate(date, false, false, false)
  }

  /** A cell before the month: day `DaysInMonth(mi - 1) - LeadingDays(mi) + j + 1` of the previous month, unflagged. */
  lemma PreviousMonthCell(mi: int, selected: Option<Instant>, now: Instant, j: int)
    requires 0 <= j < LeadingDays(mi)
    ensures LegacyCell(mi, selected, now, j)
         == CalendarDate(AddDays(MonthAt(mi - 1), DaysInMonth(mi - 1) - LeadingDays(mi) + j), false, false, false)
  {
    MonthStartStep(mi - 1);
  }

  /** A cell of the month: day `j - LeadingDays(mi) + 1`, flagged against the selection and today. */
  lemma CurrentMonthCell(mi: int, selected: Option<Instant>, now: Instant, j: int)
    requires LeadingDays(mi) <= j < LeadingDays(mi) + DaysInMonth(mi)
    ensures var date := AddDays(MonthAt(mi), j - LeadingDays(mi));
      LegacyCell(mi, selected, now, j)
      == CalendarDate(date, if selected.Some? then SameDay(selected.value, date) else false, SameDay(date, now), true)
  {
  }

  /** A cell after the month: day `j - LeadingDays(mi) - DaysInMonth(mi) + 1` of the next month, unflagged. */
  lemma NextMonthCell(mi: int, selected: Option<Instant>, now: Instant, j: int)
    requires LeadingDays(mi) + DaysInMonth(mi) <= j
    ensures LegacyCell(mi, selected, now, j)
         == CalendarDate(AddDays(MonthAt(mi + 1), j - LeadingDays(mi) - DaysInMonth(mi)), false, false, false)
  {
    MonthStartStep(mi);
  }

  /** `cells` are the first `|cells|` cells of the grid for month `mi`. */
  predicate CellsSoFar(cells: seq<CalendarDate>, mi: int, selected: Option<Instant>, now: Instant)
  {
    forall j :: 0 <= j < |cells| ==> cells[j] == LegacyCell(mi, selected, now, j)
  }

  /** Appending the next cell of the grid keeps a prefix of the grid. */
  lemma CellsSoFarSnoc(cells: seq<CalendarDate>, mi: int, selected: Option<Instant>, now: Instant, cell: CalendarDate)
    requires CellsSoFar(cells, mi, selected, now) && cell == LegacyCell(mi, selected, now, |cells|)
    ensures CellsSoFar(cells + [cell], mi, selected, now)
  {
  }

  /**
   * The first loop of `generateDaysForMonth`: the last `LeadingDays` days of
   * the previous month, unflagged.
   */
  method PreviousMonthDays(ghost mi: int, startOfMonth: Instant, daysFromPreviousMonth: int,
                           selected: Option<Instant>, now: Instant) returns (allDays: seq<CalendarDate>)
    requires startOfMonth == MonthAt(mi) && daysFromPreviousMonth == LeadingDays(mi)
    ensures |allDays| == LeadingDays(mi)
    ensures CellsSoFar(allDays, mi, selected, now)
  {
    allDays := [];
    if daysFromPreviousMonth > 0 {
      var prevMonth := AddMonths(startOfMonth, -1);
      assert prevMonth == MonthAt(mi - 1) by { AddMonthsAt(mi, -1); }
      var prevMonthDays := DaysInMonthAt(prevMonth);
      assert prevMonthDays == DaysInMonth(mi - 1) by { MonthAtIndex(mi - 1); }
      for day := prevMonthDays - daysFromPreviousMonth + 1 to prevMonthDays + 1
        invariant |allDays| == day - (prevMonthDays - daysFromPreviousMonth + 1)
        invariant CellsSoFar(allDays, mi, selected, now)
      {
        var date := AddDays(prevMonth, day - 1);
        PreviousMonthCell(mi, selected, now, |allDays|);
        CellsSoFarSnoc(allDays, mi, selected, now, CalendarDate(date, false, false, false));
        allDays := allDays + [CalendarDate(date, false, false, false)];
      }
    }
  }

  /**
   * The second loop of `generateDaysForMonth`: days 1 .. `daysInMonth`,
   * flagged against the selection and today.
   */
  method AppendMonthDays(ghost mi: int, cells: seq<CalendarDate>, startOfMonth: Instant, daysInMonth: int,
                         selected: Option<Instant>, now: Instant) returns (allDays: seq<CalendarDate>)
    requires startOfMonth == MonthAt(mi) && daysInMonth == DaysInMonth(mi)
    requires |cells| == LeadingDays(mi) && CellsSoFar(cells, mi, selected, now)
    ensures |allDays| == LeadingDays(mi) + DaysInMonth(mi)
    ensures CellsSoFar(allDays, mi, selected, now)
  {
    allDays := cells;
    for day := 1 to daysInMonth + 1
      invariant |allDays| == |cells| + day - 1
      invariant CellsSoFar(allDays, mi, selected, now)
    {
      var date := AddDays(startOfMonth, day - 1);
      var isToday := SameDay(date, now);
      var isSelected := if selected.Some? then SameDay(selected.value, date) else false;
      CurrentMonthCell(mi, selected, now, |allDays|);
      CellsSoFarSnoc(allDays, mi, selected, now, CalendarDate(date, isSelected, isToday, true));
      allDays := allDays + [CalendarDate(date, isSelected, isToday, true)];
    }
  }

  /**
   * The third loop of `generateDaysForMonth`: the first days of the next
   * month, unflagged, until the grid holds 42 cells.
   */
  method AppendNextMonthDays(ghost mi: int, cells: seq<CalendarDate>, startOfMonth: Instant, remainingDays: int,
                             selected: Option<Instant>, now: Instant) returns (allDays: seq<CalendarDate>)
    requires startOfMonth == MonthAt(mi) && remainingDays == 42 - |cells|
    requires |cells| == LeadingDays(mi) + DaysInMonth(mi) && CellsSoFar(cells, mi, selected, now)
    ensures |allDays| == 42
    ensures CellsSoFar(allDays, mi, selected, now)
  {
    allDays := cells;
    if remainingDays > 0 {
      var nextMonth := AddMonths(startOfMonth, 1);
      assert nextMonth == MonthAt(mi + 1) by { AddMonthsAt(mi, 1); }
      for day := 1 to remainingDays + 1
        invariant |allDays| == |cells| + day - 1
        invariant CellsSoFar(allDays, mi, selected, now)
      {
        var date := AddDays(nextMonth, day - 1);
        NextMonthCell(mi, selected, now, |allDays|);
        CellsSoFarSnoc(allDays, mi, selected, now, CalendarDate(date, false, false, false));
        allDays := allDays + [CalendarDate(date, false, false, false)];
      }
    }
  }

  /** The grid's cells in reading order. */
  function LegacyMonthCells(month: Instant, selected: Option<Instant>, now: Instant): (cells: seq<CalendarDate>)
    ensures |cells| == 42
  {
    seq(42, i => LegacyCell(MonthIndexOf(month), selected, now, i))
  }

  /** Cell `i` of the grid is the legacy cell `i` of its month. */
  lemma LegacyCellAt(month: Instant, selected: Option<Instant>, now: Instant, i: int)
    requires 0 <= i < 42
    ensures LegacyMonthCells(month, selected, now)[i] == LegacyCell(MonthIndexOf(month), selected, now, i)
    ensures var mi, cell := MonthIndexOf(month), LegacyMonthCells(month, selected, now)[i];
      && DayOf(cell.date) == MonthStart(mi) - LeadingDays(mi) + i
      && (cell.isInCurrentMonth <==> LeadingDays(mi) <= i < LeadingDays(mi) + DaysInMonth(mi))
  {
  }

  /** The grid cut into weeks. */
  function LegacyMonthPage(month: Instant, selected: Option<Instant>, now: Instant): seq<seq<CalendarDate>>
  {
    Rows(LegacyMonthCells(month, selected, now))
  }

  /**
   * The grid has six rows of seven consecutive days at midnight, starting on
   * a Sunday; it shows the first of the month in column `LeadingDays`.
   */
  lemma LegacyGridShape(month: Instant, selected: Option<Instant>, now: Instant)
    ensures var page := LegacyMonthPage(month, selected, now);
      var cells := LegacyMonthCells(month, selected, now);
      && |page| == 6
      && (forall r :: 0 <= r < 6 ==> |page[r]| == 7)
      && (forall r, c :: 0 <= r < 6 && 0 <= c < 7 ==> page[r][c] == cells[7 * r + c])
      && WeekdayOf(cells[0].date) == 1
      && (forall i :: 0 <= i < 42 ==> DayOf(cells[i].date) == DayOf(cells[0].date) + i && TimeOfDay(cells[i].date) == 0)
      && cells[LeadingDays(MonthIndexOf(month))].date == StartOfMonth(month)
  {
    RowsOfFullWeeks(LegacyMonthCells(month, selected, now), 6);
    LegacyGridDays(month, selected, now);
    StartOfMonthIsMonthAt(month);
  }

  /** The cells are consecutive days from a Sunday, and day 1 of the month sits in column `LeadingDays`. */
  lemma LegacyGridDays(month: Instant, selected: Option<Instant>, now: Instant)
    ensures var cells := LegacyMonthCells(month, selected, now);
      && WeekdayOf(cells[0].date) == 1
      && (forall i :: 0 <= i < 42 ==> DayOf(cells[i].date) == DayOf(cells[0].date) + i && TimeOfDay(cells[i].date) == 0)
      && cells[LeadingDays(MonthIndexOf(month))].date == MonthAt(MonthIndexOf(month))
  {
    var mi := MonthIndexOf(month);
    SundayBeforeMonth(MonthStart(mi));
  }

  /** Stepping back from a day by its weekday count from Sunday reaches a Sunday. */
  lemma SundayBeforeMonth(first: int)
    ensures Weekday(first - (Weekday(first) - 1)) == 1
  {
    assert first + 4 == 7 * ((first + 4) / 7) + (first + 4) % 7;
  }

  /** The cells before the month are the last `LeadingDays` days of the previous month. */
  lemma LegacyGridLeading(month: Instant, selected: Option<Instant>, now: Instant, i: int)
    requires 0 <= i < LeadingDays(MonthIndexOf(month))
    ensures var mi := MonthIndexOf(month);
      var cell := LegacyMonthCells(month, selected, now)[i];
      && !cell.isInCurrentMonth && MonthIndexOf(cell.date) == mi - 1
      && ToCivil(DayOf(cell.date)).day == DaysInMonth(mi - 1) - LeadingDays(mi) + i + 1
  {
    LegacyCellAt(month, selected, now, i);
    DayOfPreviousMonth(MonthIndexOf(month), DayOf(LegacyMonthCells(month, selected, now)[i].date));
  }

  /** The next `DaysInMonth` cells are days 1, 2, ... of the month, flagged in the month. */
  lemma LegacyGridMonthDays(month: Instant, selected: Option<Instant>, now: Instant, i: int)
    requires var mi := MonthIndexOf(month); LeadingDays(mi) <= i < LeadingDays(mi) + DaysInMonth(mi)
    ensures var cell := LegacyMonthCells(month, selected, now)[i];
      && cell.isInCurrentMonth && SameMonth(cell.date, month)
      && ToCivil(DayOf(cell.date)) == Civil(YearComponent(month), MonthComponent(month), i - LeadingDays(MonthIndexOf(month)) + 1)
  {
    var mi := MonthIndexOf(month);
    LegacyCellAt(month, selected, now, i);
    CivilAt(MonthStart(mi) - LeadingDays(mi) + i, mi, i - LeadingDays(mi) + 1);
    Components(month);
  }

  /** The remaining cells are the first days of the next month. */
  lemma LegacyGridTrailing(month: Instant, selected: Option<Instant>, now: Instant, i: int)
    requires var mi := MonthIndexOf(month); LeadingDays(mi) + DaysInMonth(mi) <= i < 42
    ensures var mi := MonthIndexOf(month);
      var cell := LegacyMonthCells(month, selected, now)[i];
      && !cell.isInCurrentMonth && MonthIndexOf(cell.date) == mi + 1
      && ToCivil(DayOf(cell.date)).day == i - LeadingDays(mi) - DaysInMonth(mi) + 1
  {
    LegacyCellAt(month, selected, now, i);
    DayOfNextMonth(MonthIndexOf(month), DayOf(LegacyMonthCells(month, selected, now)[i].date));
  }

  /**
   * Only days of the month can be selected or today, and on them the flags
   * follow the selection and `now` by day.
   */
  lemma LegacyFlagsOnlyInMonth(month: Instant, selected: Option<Instant>, now: Instant, i: int)
    requires 0 <= i < 42
    ensures var cell := LegacyMonthCells(month, selected, now)[i];
      && (cell.isSelected || cell.isToday ==> cell.isInCurrentMonth)
      && (cell.isInCurrentMonth ==>
            (cell.isToday <==> SameDay(cell.date, now))
            && (cell.isSelected <==> selected.Some? && SameDay(selected.value, cell.date)))
  {
  }

  /** `generateAllMonthsDays`: one grid per displayed month. */
  function MonthsData(months: seq<Instant>, selected: Option<Instant>, now: Instant): (data: seq<seq<seq<CalendarDate>>>)
    ensures |data| == |months|
  {
    seq(|months|, i requires 0 <= i < |months| => LegacyMonthPage(months[i], selected, now))
  }

  // ---------------------------------------------------------------------
  // The view model

  /** `CalendarViewModel`: the displayed window, its grids, the selection, and the delegate calls made. */
  class CalendarViewModel {
    var selectedDate: Option<Instant>
    var displayedMonths: seq<Instant>
    var monthsData: seq<seq<seq<CalendarDate>>>
    const minimumDate: Instant
    const maximumDate: Instant
    var calls: seq<DelegateCall>

    /** The window always holds three months. */
    predicate Valid()
      reads this
    {
      |displayedMonths| == 3
    }

    /** `init`: the window of the initial date's month and its neighbours, and their grids. */
    constructor(initialDate: Instant, minimumDate: Instant, maximumDate: Instant, now: Instant)
      ensures Valid()
      ensures displayedMonths == Window(MonthIndexOf(initialDate))
      ensures monthsData == MonthsData(displayedMonths, None, now)
      ensures selectedDate == None && calls == []
      ensures this.minimumDate == minimumDate && this.maximumDate == maximumDate
    {
      this.minimumDate := minimumDate;
      this.maximumDate := maximumDate;
      selectedDate := None;
      calls := [];
      var currentMonth := StartOfMonth(initialDate);
      WindowOfDate(initialDate);
      var prevMonth := AddMonths(currentMonth, -1);
      var nextMonth := AddMonths(currentMonth, 1);
      displayedMonths := [prevMonth, currentMonth, nextMonth];
      new;
      GenerateAllMonthsDays(now);
    }

    /**
     * `moveMonth(by:)`: reports the old centre, slides the window one month,
     * regenerates the grids, and reports the new centre. The bounds are not
     * consulted.
     */
    method MoveMonth(value: int, now: Instant)
      requires Valid()
      modifies this
      ensures Valid()
      ensures displayedMonths == Shifted(old(displayedMonths), value)
      ensures monthsData == MonthsData(displayedMonths, selectedDate, now)
      ensures selectedDate == old(selectedDate)
      ensures calls == old(calls) + [PageWillChange(old(displayedMonths)[1]), PageDidChange(displayedMonths[1])]
    {
      calls := calls + [PageWillChange(displayedMonths[1])];
      var newMonths := displayedMonths;
      if value > 0 {
        var newMonth := AddMonths(displayedMonths[2], 1);
        newMonths := newMonths[1..];
        newMonths := newMonths + [newMonth];
      } else {
        var newMonth := AddMonths(displayedMonths[0], -1);
        newMonths := newMonths[..|newMonths| - 1];
        newMonths := [newMonth] + newMonths;
      }
      displayedMonths := newMonths;
      GenerateAllMonthsDays(now);
      calls := calls + [PageDidChange(displayedMonths[1])];
    }

    /** `selectDate(_:)`: always accepted, whatever the bounds; regenerates the grids and reports the date. */
    method SelectDate(date: Instant, now: Instant)
      modifies this
      ensures selectedDate == Some(date)
      ensures displayedMonths == old(displayedMonths)
      ensures monthsData == MonthsData(displayedMonths, selectedDate, now)
      ensures calls == old(calls) + [DidSelect(date)]
    {
      selectedDate := Some(date);
      GenerateAllMonthsDays(now);
      calls := calls + [DidSelect(date)];
    }

    /** `generateAllMonthsDays()`: the grid of every displayed month. */
    method GenerateAllMonthsDays(now: Instant)
      modifies this
      ensures monthsData == MonthsData(displayedMonths, selectedDate, now)
      ensures displayedMonths == old(displayedMonths) && selectedDate == old(selectedDate) && calls == old(calls)
    {
      var data: seq<seq<seq<CalendarDate>>> := [];
      for i := 0 to |displayedMonths|
        invariant unchanged(this)
        invariant |data| == i
        invariant forall k :: 0 <= k < i ==> data[k] == LegacyMonthPage(displayedMonths[k], selectedDate, now)
      {
        var page := GenerateDaysForMonth(displayedMonths[i], now);
        data := data + [page];
      }
      monthsData := data;
    }

    /**
     * `generateDaysForMonth(_:)`: the trailing days of the previous month,
     * the days of the month, then days of the next month up to 42 cells, cut
     * into weeks.
     */
    method GenerateDaysForMonth(month: Instant, now: Instant) returns (page: seq<seq<CalendarDate>>)
      ensures page == LegacyMonthPage(month, selectedDate, now)
    {
      ghost var mi := MonthIndexOf(month);
      var startOfMonth := StartOfMonth(month);
      assert startOfMonth == MonthAt(mi) by { StartOfMonthIsMonthAt(month); }
      var firstWeekday := WeekdayOf(startOfMonth);
      var daysInMonth := DaysInMonthAt(month);
      assert firstWeekday - 1 == LeadingDays(mi) && daysInMonth == DaysInMonth(mi);
      var daysFromPreviousMonth := firstWeekday - 1;
      var allDays := PreviousMonthDays(mi, startOfMonth, daysFromPreviousMonth, selectedDate, now);
      allDays := AppendMonthDays(mi, allDays, startOfMonth, daysInMonth, selectedDate, now);
      var remainingDays := 42 - |allDays|;
      allDays := AppendNextMonthDays(mi, allDays, startOfMonth, remainingDays, selectedDate, now);
      assert allDays == LegacyMonthCells(month, selectedDate, now);
      page := Rows(allDays);
    }
  }
}
