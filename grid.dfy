/**
 * Page generation of the calendar view model
 * (Sources/Internal/Views/ViewModels/TSCalendarViewModel.swift): month grids,
 * week rows, the three-page window of anchors, and page heights. These are
 * the pure parts of the view model; the state changes are in Navigation.
 */
module Grid {
  import opened Wrappers
  import opened Gregorian
  import opened CalendarExt
  import opened Enums
  import opened CalendarConfig
  import opened CollectionExt

  /** `TSCalendarDate`: one cell of a page. */
  datatype CalendarDate = CalendarDate(date: Instant, isSelected: bool, isToday: bool, isInCurrentMonth: bool)

  /** The cell for `date`, flagged against the selection, today and the page's reference month. */
  function Cell(date: Instant, selected: Option<Instant>, now: Instant, monthRef: Instant): CalendarDate
  {
    CalendarDate(
      date,
      selected.Some? && SameDay(selected.value, date),
      SameDay(date, now),
      SameMonth(date, monthRef))
  }

  /** Cells for `n` consecutive days from `first`, all flagged against the same selection, today and month. */
  function DayRun(first: Instant, n: nat, selected: Option<Instant>, now: Instant, monthRef: Instant): (cells: seq<CalendarDate>)
    ensures |cells| == n
    ensures forall i :: 0 <= i < n ==>
      DayOf(cells[i].date) == DayOf(first) + i && TimeOfDay(cells[i].date) == TimeOfDay(first)
      && cells[i] == Cell(cells[i].date, selected, now, monthRef)
  {
    var cells := seq(n, i => Cell(AddDays(first, i), selected, now, monthRef));
    forall i | 0 <= i < n
      ensures DayOf(cells[i].date) == DayOf(first) + i && TimeOfDay(cells[i].date) == TimeOfDay(first)
    {
      AddDaysDay(first, i);
    }
    cells
  }

  // ---------------------------------------------------------------------
  // Leading offset and row count

  /** `((firstWeekday - 1) - startWeekDay.rawValue + 7) % 7`: the column of a day with the given weekday. */
  function LeadingOffset(weekday: int, startWeekDay: StartWeekDay): (off: int)
    requires 1 <= weekday <= 7
    ensures 0 <= off < 7
  {
    ((weekday - 1) - startWeekDay.RawValue() + 7) % 7
  }

  /** Stepping back by the leading offset always reaches the configured first day of the week. */
  lemma LeadingOffsetAligns(n: int, startWeekDay: StartWeekDay)
    ensures Weekday(n - LeadingOffset(Weekday(n), startWeekDay)) == startWeekDay.RawValue() + 1
  {
    var w := (n + 4) % 7;
    var r := startWeekDay.RawValue();
    var off := LeadingOffset(Weekday(n), startWeekDay);
    assert n + 4 == 7 * ((n + 4) / 7) + w;
    if w >= r {
      assert off == w - r;
      assert n - off + 4 == 7 * ((n + 4) / 7) + r;
    } else {
      assert off == w - r + 7;
      assert n - off + 4 == 7 * ((n + 4) / 7 - 1) + r;
    }
  }

  /** Rows of a month page: six for the fixed style, otherwise ceil((offset + days) / 7). */
  function WeeksNeeded(style: MonthStyle, off: int, daysInMonth: int): (rows: int)
    requires 0 <= off < 7 && 28 <= daysInMonth <= 31
    ensures off + daysInMonth <= 7 * rows
    ensures style == FixedWeeks ==> rows == 6
    ensures style == Dynamic ==> 7 * (rows - 1) < off + daysInMonth
  {
    match style
    case FixedWeeks => 6
    case Dynamic => (off + daysInMonth + 6) / 7
  }

  /** The month-page quantities every month computation starts from. */
  function MonthLeadingOffset(month: Instant, cfg: Config): (off: int)
    ensures 0 <= off < 7
  {
    LeadingOffset(WeekdayOf(StartOfMonth(month)), cfg.startWeekDay)
  }

  /** `calculateWeeksCount(for:config:)`. */
  function WeeksCount(month: Instant, cfg: Config): (rows: int)
    ensures 4 <= rows <= 6
    ensures cfg.monthStyle == FixedWeeks ==> rows == 6
    ensures MonthLeadingOffset(month, cfg) + DaysInMonthAt(month) <= 7 * rows
    ensures cfg.monthStyle == Dynamic ==> 7 * (rows - 1) < MonthLeadingOffset(month, cfg) + DaysInMonthAt(month)
  {
    WeeksNeeded(cfg.monthStyle, MonthLeadingOffset(month, cfg), DaysInMonthAt(month))
  }

  // ---------------------------------------------------------------------
  // Month pages

  /**
   * The flat cell list of `generateDaysForMonth`, before it is cut into rows:
   * the days `-offset ..< rows * 7 - offset` counted from the first of the month.
   */
  function MonthCells(month: Instant, cfg: Config, selected: Option<Instant>, now: Instant): (cells: seq<CalendarDate>)
    ensures |cells| == 7 * WeeksCount(month, cfg)
  {
    DayRun(AddDays(StartOfMonth(month), -MonthLeadingOffset(month, cfg)), 7 * WeeksCount(month, cfg), selected, now, month)
  }

  /** `stride(from: 0, to: count, by: 7).map { Array(s[$0..<min($0 + 7, count)]) }`. */
  function Rows<T>(s: seq<T>): (rows: seq<seq<T>>)
    ensures |rows| == (|s| + 6) / 7
  {
    seq((|s| + 6) / 7, j requires 0 <= j < (|s| + 6) / 7 =>
      s[7 * j .. if 7 * j + 7 <= |s| then 7 * j + 7 else |s|])
  }

  /** A list whose length is a multiple of seven is cut into full rows, read row by row. */
  lemma RowsOfFullWeeks<T>(s: seq<T>, rows: nat)
    requires |s| == 7 * rows
    ensures |Rows(s)| == rows
    ensures forall j :: 0 <= j < rows ==> |Rows(s)[j]| == 7
    ensures forall j, k :: 0 <= j < rows && 0 <= k < 7 ==> Rows(s)[j][k] == s[7 * j + k]
  {
    assert (|s| + 6) / 7 == rows;
  }

  /** `generateDaysForMonth(_:)`. */
  function MonthPage(month: Instant, cfg: Config, selected: Option<Instant>, now: Instant): seq<seq<CalendarDate>>
  {
    Rows(MonthCells(month, cfg, selected, now))
  }

  /** Flat cell `i` of a month page falls `i - offset` days after the first of the month. */
  lemma MonthCellDay(month: Instant, cfg: Config, selected: Option<Instant>, now: Instant, i: int)
    requires 0 <= i < 7 * WeeksCount(month, cfg)
    ensures DayOf(MonthCells(month, cfg, selected, now)[i].date)
         == MonthStart(MonthIndexOf(month)) + i - MonthLeadingOffset(month, cfg)
    ensures TimeOfDay(MonthCells(month, cfg, selected, now)[i].date) == 0
  {
    AddDaysDay(StartOfMonth(month), -MonthLeadingOffset(month, cfg));
  }

  /** A run of whole weeks, cut into rows: full rows of consecutive days, starting on the run's first day. */
  lemma RunRows(first: Instant, rows: nat, selected: Option<Instant>, now: Instant, monthRef: Instant)
    ensures var page := Rows(DayRun(first, 7 * rows, selected, now, monthRef));
      && |page| == rows
      && (forall j :: 0 <= j < rows ==> |page[j]| == 7)
      && (forall j, k :: 0 <= j < rows && 0 <= k < 7 ==> DayOf(page[j][k].date) == DayOf(page[0][0].date) + 7 * j + k)
      && (rows > 0 ==> WeekdayOf(page[0][0].date) == Weekday(DayOf(first)))
  {
    var cells := DayRun(first, 7 * rows, selected, now, monthRef);
    RowsOfFullWeeks(cells, rows);
    forall j, k | 0 <= j < rows && 0 <= k < 7
      ensures DayOf(Rows(cells)[j][k].date) == DayOf(first) + 7 * j + k
    {
      assert Rows(cells)[j][k] == cells[7 * j + k];
    }
    if rows > 0 {
      assert Rows(cells)[0][0] == cells[0];
    }
  }

  /** A month page is the run of its weeks, from the first cell the leading offset gives. */
  lemma MonthPageIsRun(month: Instant, cfg: Config, selected: Option<Instant>, now: Instant)
    ensures MonthPage(month, cfg, selected, now)
         == Rows(DayRun(AddDays(StartOfMonth(month), -MonthLeadingOffset(month, cfg)), 7 * WeeksCount(month, cfg), selected, now, month))
  {
  }

  /**
   * The shape of a month page: `WeeksCount` rows of seven consecutive days,
   * the first of which falls on the configured first day of the week.
   */
  lemma MonthPageShape(month: Instant, cfg: Config, selected: Option<Instant>, now: Instant)
    ensures var page := MonthPage(month, cfg, selected, now);
      && |page| == WeeksCount(month, cfg)
      && (forall j :: 0 <= j < |page| ==> |page[j]| == 7)
      && (forall j, k :: 0 <= j < |page| && 0 <= k < 7 ==>
            DayOf(page[j][k].date) == DayOf(page[0][0].date) + 7 * j + k)
      && WeekdayOf(page[0][0].date) == cfg.startWeekDay.RawValue() + 1
  {
    MonthPageIsRun(month, cfg, selected, now);
    RunRows(AddDays(StartOfMonth(month), -MonthLeadingOffset(month, cfg)), WeeksCount(month, cfg), selected, now, month);
    FirstCellWeekday(month, cfg);
  }

  /** The first cell of a month page falls on the configured first day of the week. */
  lemma FirstCellWeekday(month: Instant, cfg: Config)
    ensures Weekday(DayOf(AddDays(StartOfMonth(month), -MonthLeadingOffset(month, cfg)))) == cfg.startWeekDay.RawValue() + 1
  {
    var som := StartOfMonth(month);
    var off := MonthLeadingOffset(month, cfg);
    AddDaysDay(som, -off);
    LeadingOffsetAligns(DayOf(som), cfg.startWeekDay);
  }

  /** Whether flat cell `i` is in the page's month depends only on its position. */
  lemma MonthCellMembership(month: Instant, cfg: Config, selected: Option<Instant>, now: Instant, i: int)
    requires 0 <= i < 7 * WeeksCount(month, cfg)
    ensures MonthCells(month, cfg, selected, now)[i].isInCurrentMonth
      <==> MonthLeadingOffset(month, cfg) <= i < MonthLeadingOffset(month, cfg) + DaysInMonthAt(month)
  {
    var c := MonthCells(month, cfg, selected, now)[i];
    MonthCellDay(month, cfg, selected, now, i);
    MonthOfIff(DayOf(c.date), MonthIndexOf(month));
  }

  /** The civil date of flat cell `offset + d - 1` is day `d` of the page's month. */
  lemma MonthCellCivil(month: Instant, cfg: Config, selected: Option<Instant>, now: Instant, d: int)
    requires 1 <= d <= DaysInMonthAt(month)
    ensures MonthLeadingOffset(month, cfg) + d - 1 < 7 * WeeksCount(month, cfg)
    ensures ToCivil(DayOf(MonthCells(month, cfg, selected, now)[MonthLeadingOffset(month, cfg) + d - 1].date))
         == Civil(YearComponent(month), MonthComponent(month), d)
  {
    var i := MonthLeadingOffset(month, cfg) + d - 1;
    MonthCellDay(month, cfg, selected, now, i);
    var day := MonthStart(MonthIndexOf(month)) + d - 1;
    assert DayOf(MonthCells(month, cfg, selected, now)[i].date) == day;
    CivilOfMonthDay(month, d);
    assert ToCivil(day) == Civil(YearComponent(month), MonthComponent(month), d);
  }

  /** A cell of a month page is in the page's month exactly when it is one of the cells `offset .. offset + daysInMonth - 1`. */
  lemma MonthPageMembership(month: Instant, cfg: Config, selected: Option<Instant>, now: Instant)
    ensures var cells := MonthCells(month, cfg, selected, now);
      forall i :: 0 <= i < |cells| ==>
        (cells[i].isInCurrentMonth <==> MonthLeadingOffset(month, cfg) <= i < MonthLeadingOffset(month, cfg) + DaysInMonthAt(month))
  {
    var cells := MonthCells(month, cfg, selected, now);
    forall i | 0 <= i < |cells|
      ensures cells[i].isInCurrentMonth <==> MonthLeadingOffset(month, cfg) <= i < MonthLeadingOffset(month, cfg) + DaysInMonthAt(month)
    {
      MonthCellMembership(month, cfg, selected, now, i);
    }
  }

  /** The cells `offset .. offset + daysInMonth - 1` of a month page are the days 1, 2, ... of its month, in order. */
  lemma MonthPageDays(month: Instant, cfg: Config, selected: Option<Instant>, now: Instant)
    ensures var cells := MonthCells(month, cfg, selected, now);
      forall d :: 1 <= d <= DaysInMonthAt(month) ==>
        && MonthLeadingOffset(month, cfg) + d - 1 < |cells|
        && ToCivil(DayOf(cells[MonthLeadingOffset(month, cfg) + d - 1].date)) == Civil(YearComponent(month), MonthComponent(month), d)
  {
    forall d | 1 <= d <= DaysInMonthAt(month)
      ensures MonthLeadingOffset(month, cfg) + d - 1 < |MonthCells(month, cfg, selected, now)|
      ensures ToCivil(DayOf(MonthCells(month, cfg, selected, now)[MonthLeadingOffset(month, cfg) + d - 1].date))
           == Civil(YearComponent(month), MonthComponent(month), d)
    {
      MonthCellCivil(month, cfg, selected, now, d);
    }
  }

  /** The days of a month page strictly increase, so no day appears twice. */
  lemma MonthPageIncreasing(month: Instant, cfg: Config, selected: Option<Instant>, now: Instant)
    ensures var cells := MonthCells(month, cfg, selected, now);
      forall i, j :: 0 <= i < j < |cells| ==> DayOf(cells[i].date) < DayOf(cells[j].date)
  {
    var cells := MonthCells(month, cfg, selected, now);
    forall i, j | 0 <= i < j < |cells| ensures DayOf(cells[i].date) < DayOf(cells[j].date) {
      MonthCellDay(month, cfg, selected, now, i);
      MonthCellDay(month, cfg, selected, now, j);
    }
  }

  /** At most one cell of a list of distinct days is selected, and it is the one on the selected day. */
  lemma SelectionIsUnique(cells: seq<CalendarDate>, selected: Option<Instant>, now: Instant, monthRef: Instant)
    requires forall i, j :: 0 <= i < j < |cells| ==> DayOf(cells[i].date) < DayOf(cells[j].date)
    requires forall i :: 0 <= i < |cells| ==> cells[i] == Cell(cells[i].date, selected, now, monthRef)
    ensures forall i :: 0 <= i < |cells| && cells[i].isSelected ==>
      selected.Some? && SameDay(cells[i].date, selected.value)
    ensures forall i, j :: 0 <= i < |cells| && 0 <= j < |cells| && cells[i].isSelected && cells[j].isSelected ==> i == j
    ensures forall i, j :: 0 <= i < |cells| && 0 <= j < |cells| && cells[i].isToday && cells[j].isToday ==> i == j
  {
    forall i, j | 0 <= i < |cells| && 0 <= j < |cells| && cells[i].isSelected && cells[j].isSelected
      ensures i == j
    {
      DistinctDays(cells, i, j);
    }
    forall i, j | 0 <= i < |cells| && 0 <= j < |cells| && cells[i].isToday && cells[j].isToday
      ensures i == j
    {
      DistinctDays(cells, i, j);
    }
  }

  lemma DistinctDays(cells: seq<CalendarDate>, i: int, j: int)
    requires forall i, j :: 0 <= i < j < |cells| ==> DayOf(cells[i].date) < DayOf(cells[j].date)
    requires 0 <= i < |cells| && 0 <= j < |cells| && SameDay(cells[i].date, cells[j].date)
    ensures i == j
  {
  }

  /** On a month page, only the cell on the selected day is selected, and only the cell on today is today. */
  lemma MonthPageSelection(month: Instant, cfg: Config, selected: Option<Instant>, now: Instant)
    ensures var cells := MonthCells(month, cfg, selected, now);
      && (forall i :: 0 <= i < |cells| && cells[i].isSelected ==>
            selected.Some? && SameDay(cells[i].date, selected.value))
      && (forall i, j :: 0 <= i < |cells| && 0 <= j < |cells| && cells[i].isSelected && cells[j].isSelected ==> i == j)
      && (forall i, j :: 0 <= i < |cells| && 0 <= j < |cells| && cells[i].isToday && cells[j].isToday ==> i == j)
  {
    MonthPageIncreasing(month, cfg, selected, now);
    SelectionIsUnique(MonthCells(month, cfg, selected, now), selected, now, month);
  }

  // ---------------------------------------------------------------------
  // Week rows

  /**
   * `getCurrentWeek(from:)`: the start of the week containing `t`, for a
   * calendar whose weeks begin on `firstWeekday` (1 = Sunday).
   */
  function WeekStart(t: Instant, firstWeekday: int): (r: Instant)
    requires 1 <= firstWeekday <= 7
    ensures TimeOfDay(r) == 0 && WeekdayOf(r) == firstWeekday
    ensures DayOf(t) - 7 < DayOf(r) <= DayOf(t)
  {
    AtDay(DayOf(t) - DaysSinceWeekday(DayOf(t), firstWeekday))
  }

  /** A week start is its own week start. */
  lemma WeekStartIdempotent(t: Instant, firstWeekday: int)
    requires 1 <= firstWeekday <= 7
    ensures WeekStart(WeekStart(t, firstWeekday), firstWeekday) == WeekStart(t, firstWeekday)
  {
    var r := WeekStart(t, firstWeekday);
    var k := DaysSinceWeekday(DayOf(r), firstWeekday);
    assert Weekday(DayOf(r) - k) == Weekday(DayOf(r));
    WeekdayDistinct(DayOf(r) - k, DayOf(r));
  }

  /**
   * Two instants have the same week start exactly when the second one's day
   * lies in the seven days that begin at the first one's week start.
   */
  lemma SameWeekStart(a: Instant, b: Instant, firstWeekday: int)
    requires 1 <= firstWeekday <= 7
    ensures WeekStart(a, firstWeekday) == WeekStart(b, firstWeekday)
        <==> DayOf(WeekStart(a, firstWeekday)) <= DayOf(b) < DayOf(WeekStart(a, firstWeekday)) + 7
  {
    var ra, rb := WeekStart(a, firstWeekday), WeekStart(b, firstWeekday);
    if DayOf(ra) <= DayOf(b) < DayOf(ra) + 7 {
      if DayOf(ra) <= DayOf(rb) {
        WeekdayDistinct(DayOf(ra), DayOf(rb));
      } else {
        WeekdayDistinct(DayOf(rb), DayOf(ra));
      }
      assert ra == AtDay(DayOf(ra)) && rb == AtDay(DayOf(rb));
    }
  }

  /** Within seven consecutive days no weekday repeats. */
  lemma WeekdayDistinct(a: int, b: int)
    requires a <= b < a + 7 && Weekday(a) == Weekday(b)
    ensures a == b
  {
    assert a + 4 == 7 * ((a + 4) / 7) + (a + 4) % 7;
    assert b + 4 == 7 * ((b + 4) / 7) + (b + 4) % 7;
  }

  /** `generateDaysForWeek(_:)`: seven days from the configured first day of the week containing `weekStart`. */
  function WeekRow(weekStart: Instant, cfg: Config, selected: Option<Instant>, now: Instant, monthRef: Instant): (row: seq<CalendarDate>)
    ensures |row| == 7
  {
    DayRun(AddDays(weekStart, -LeadingOffset(WeekdayOf(weekStart), cfg.startWeekDay)), 7, selected, now, monthRef)
  }

  /**
   * A week row holds seven consecutive days, starts on the configured first
   * day of the week, and contains `weekStart`'s own day.
   */
  lemma WeekRowShape(weekStart: Instant, cfg: Config, selected: Option<Instant>, now: Instant, monthRef: Instant)
    ensures var row := WeekRow(weekStart, cfg, selected, now, monthRef);
      && (forall i :: 0 <= i < 7 ==> DayOf(row[i].date) == DayOf(row[0].date) + i)
      && WeekdayOf(row[0].date) == cfg.startWeekDay.RawValue() + 1
      && DayOf(row[0].date) <= DayOf(weekStart) < DayOf(row[0].date) + 7
      && (forall i :: 0 <= i < 7 ==> row[i].isInCurrentMonth == SameMonth(row[i].date, monthRef))
  {
    var off := LeadingOffset(WeekdayOf(weekStart), cfg.startWeekDay);
    AddDaysDay(weekStart, -off);
    LeadingOffsetAligns(DayOf(weekStart), cfg.startWeekDay);
  }

  /** On a week row, only the cell on the selected day is selected. */
  lemma WeekRowSelection(weekStart: Instant, cfg: Config, selected: Option<Instant>, now: Instant, monthRef: Instant)
    ensures var row := WeekRow(weekStart, cfg, selected, now, monthRef);
      && (forall i :: 0 <= i < 7 && row[i].isSelected ==> selected.Some? && SameDay(row[i].date, selected.value))
      && (forall i, j :: 0 <= i < 7 && 0 <= j < 7 && row[i].isSelected && row[j].isSelected ==> i == j)
  {
    WeekRowShape(weekStart, cfg, selected, now, monthRef);
    SelectionIsUnique(WeekRow(weekStart, cfg, selected, now, monthRef), selected, now, monthRef);
  }

  // ---------------------------------------------------------------------
  // Anchors of the page window

  /** `calendar.date(byAdding: .month or .weekOfYear, value:, to:)`, by display mode. */
  function DateByAdding(mode: DisplayMode, value: int, t: Instant): Instant
  {
    match mode
    case Month => AddMonths(t, value)
    case Week => AddDays(t, 7 * value)
  }

  /** The anchor of the page showing `d`: its month's first day, or its week's first day. */
  function PageAnchor(mode: DisplayMode, d: Instant, firstWeekday: int): Instant
    requires 1 <= firstWeekday <= 7
  {
    match mode
    case Month => StartOfMonth(d)
    case Week => WeekStart(d, firstWeekday)
  }

  /** `getDisplayedDates(from:)`: the anchors one page before, at and after `d`. */
  function DisplayedDatesFrom(mode: DisplayMode, d: Instant, firstWeekday: int): (r: seq<Instant>)
    requires 1 <= firstWeekday <= 7
    ensures |r| == 3
    ensures forall j :: 0 <= j < 3 ==> r[j] == DateByAdding(mode, j - 1, PageAnchor(mode, d, firstWeekday))
  {
    var current := PageAnchor(mode, d, firstWeekday);
    [DateByAdding(mode, -1, current), DateByAdding(mode, 0, current), DateByAdding(mode, 1, current)]
  }

  /** Adding whole months to a month's first day gives the first day of the month that many months on. */
  lemma MonthAnchorAt(d: Instant, j: int)
    ensures var a := AddMonths(StartOfMonth(d), j);
      TimeOfDay(a) == 0 && MonthIndexOf(a) == MonthIndexOf(d) + j && DayOf(a) == MonthStart(MonthIndexOf(d) + j)
  {
    var som := StartOfMonth(d);
    AddMonthsDay(som, j);
    AddMonthsMonth(som, j);
    assert ClampedDayOffset(som, j) == 0;
  }

  /** Adding whole weeks to a week's first day keeps its weekday. */
  lemma WeekAnchorAt(w: Instant, j: int)
    ensures DayOf(AddDays(w, 7 * j)) == DayOf(w) + 7 * j
    ensures TimeOfDay(AddDays(w, 7 * j)) == TimeOfDay(w)
    ensures WeekdayOf(AddDays(w, 7 * j)) == WeekdayOf(w)
  {
    AddDaysDay(w, 7 * j);
    assert (DayOf(w) + 7 * j + 4) % 7 == (DayOf(w) + 4) % 7;
  }

  /** Moving a date by whole weeks moves its week's first day by the same weeks. */
  lemma WeekStartShift(t: Instant, k: int, firstWeekday: int)
    requires 1 <= firstWeekday <= 7
    ensures DayOf(WeekStart(AddDays(t, 7 * k), firstWeekday)) == DayOf(WeekStart(t, firstWeekday)) + 7 * k
  {
    AddDaysDay(t, 7 * k);
    assert (DayOf(t) + 7 * k + 4) % 7 == (DayOf(t) + 4) % 7;
  }

  /** In month mode the window holds the first days of the month before, the month of and the month after `d`. */
  lemma MonthWindow(d: Instant, firstWeekday: int)
    requires 1 <= firstWeekday <= 7
    ensures var r := DisplayedDatesFrom(Month, d, firstWeekday);
      forall j :: 0 <= j < 3 ==>
        TimeOfDay(r[j]) == 0 && MonthIndexOf(r[j]) == MonthIndexOf(d) + j - 1
        && DayOf(r[j]) == MonthStart(MonthIndexOf(d) + j - 1)
  {
    var r := DisplayedDatesFrom(Month, d, firstWeekday);
    forall j | 0 <= j < 3
      ensures TimeOfDay(r[j]) == 0 && MonthIndexOf(r[j]) == MonthIndexOf(d) + j - 1
      ensures DayOf(r[j]) == MonthStart(MonthIndexOf(d) + j - 1)
    {
      MonthAnchorAt(d, j - 1);
    }
  }

  /** In week mode the window holds the first days of the week before, the week of and the week after `d`. */
  lemma WeekWindow(d: Instant, firstWeekday: int)
    requires 1 <= firstWeekday <= 7
    ensures var r := DisplayedDatesFrom(Week, d, firstWeekday);
      forall j :: 0 <= j < 3 ==>
        TimeOfDay(r[j]) == 0 && WeekdayOf(r[j]) == firstWeekday
        && DayOf(r[j]) == DayOf(WeekStart(d, firstWeekday)) + 7 * (j - 1)
  {
    var r := DisplayedDatesFrom(Week, d, firstWeekday);
    var w := WeekStart(d, firstWeekday);
    forall j | 0 <= j < 3
      ensures TimeOfDay(r[j]) == 0 && WeekdayOf(r[j]) == firstWeekday
      ensures DayOf(r[j]) == DayOf(w) + 7 * (j - 1)
    {
      WeekAnchorAt(w, j - 1);
    }
  }

  // ---------------------------------------------------------------------
  // Heights

  const DefaultWeekHeight: real := 60.0

  /** The height of `rows` rows of the fixed row height `points`. */
  function RowsHeight(points: real, rows: int): real
  {
    points * (rows as real)
  }

  /** `calculateHeight(for:config:)`: the height a page needs, or none for the flexible style. */
  function CalculateHeight(month: Instant, cfg: Config): (h: Option<real>)
    ensures h.None? <==> cfg.heightStyle == Flexible
    ensures cfg.heightStyle.Fixed? && cfg.displayMode == Week ==> h == Some(cfg.heightStyle.points)
    ensures cfg.heightStyle.Fixed? && cfg.displayMode == Month ==>
      h == Some(RowsHeight(cfg.heightStyle.points, WeeksCount(month, cfg)))
  {
    if cfg.heightStyle.Flexible? then None
    else if cfg.displayMode == Month then Some(RowsHeight(cfg.heightStyle.points, WeeksCount(month, cfg)))
    else Some(cfg.heightStyle.points)
  }

  /** `getPageHeight(at:)`: the height of the stored page `index`, or the default when there is none. */
  function PageHeight<T>(cfg: Config, datesData: seq<seq<T>>, index: int): (h: real)
    ensures cfg.heightStyle == Flexible || !(0 <= index < |datesData|) ==> h == DefaultWeekHeight
    ensures cfg.heightStyle.Fixed? && cfg.displayMode == Week && 0 <= index < |datesData| ==> h == cfg.heightStyle.points
    ensures cfg.heightStyle.Fixed? && cfg.displayMode == Month && 0 <= index < |datesData|
      ==> h == RowsHeight(cfg.heightStyle.points, |datesData[index]|)
  {
    if cfg.heightStyle.Flexible? then DefaultWeekHeight
    else match SafeGet(datesData, index)
      case None => DefaultWeekHeight
      case Some(data) =>
        if cfg.displayMode == Month then RowsHeight(cfg.heightStyle.points, |data|)
        else cfg.heightStyle.points
  }

  /** A month page has `WeeksCount` rows. */
  lemma MonthPageRows(month: Instant, cfg: Config, selected: Option<Instant>, now: Instant)
    ensures |MonthPage(month, cfg, selected, now)| == WeeksCount(month, cfg)
  {
    RowsOfFullWeeks(MonthCells(month, cfg, selected, now), WeeksCount(month, cfg));
  }

  /**
   * The height read off a stored month page (rows times the fixed row height)
   * agrees with the height computed for its month from `calculateWeeksCount`.
   */
  lemma PageHeightMatchesCalculated(month: Instant, cfg: Config, selected: Option<Instant>, now: Instant)
    requires cfg.heightStyle.Fixed? && cfg.displayMode == Month
    ensures Some(PageHeight(cfg, [MonthPage(month, cfg, selected, now)], 0)) == CalculateHeight(month, cfg)
  {
    MonthPageRows(month, cfg, selected, now);
  }
}
