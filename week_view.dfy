/**
 * The helpers of one week row of the calendar
 * (Sources/Internal/Views/Week/TSCalendarWeekView.swift): which cells are
 * visible, where the visible part starts, each cell's opacity and colours,
 * and the per-day event count behind the dot/count indicator.
 *
 * Colours are tags naming the appearance entry used; the appearance's
 * `otherMonthDateOpacity` is a parameter.
 */
module WeekView {
  import opened Wrappers
  import opened Gregorian
  import opened Enums
  import opened CalendarConfig
  import opened Grid
  import opened EventRows

  // ---------------------------------------------------------------------
  // Visible dates

  /** The cells of `weekData` that lie in the page's month, in their order. */
  function InMonthOnly(weekData: seq<CalendarDate>): (r: seq<CalendarDate>)
    ensures |r| <= |weekData|
    ensures forall d :: d in r <==> d in weekData && d.isInCurrentMonth
  {
    if |weekData| == 0 then []
    else if weekData[0].isInCurrentMonth then [weekData[0]] + InMonthOnly(weekData[1..])
    else InMonthOnly(weekData[1..])
  }

  /** `s` is `t` with some elements left out, the others in their order. */
  predicate Subsequence<T(==)>(s: seq<T>, t: seq<T>)
    decreases |t|
  {
    if |s| == 0 then true
    else if |t| == 0 then false
    else if s[0] == t[0] then Subsequence(s[1..], t[1..])
    else Subsequence(s, t[1..])
  }

  /** The in-month cells keep the order they have in the row. */
  lemma {:induction false} InMonthOnlyKeepsOrder(weekData: seq<CalendarDate>)
    ensures Subsequence(InMonthOnly(weekData), weekData)
  {
    if |weekData| > 0 {
      InMonthOnlyKeepsOrder(weekData[1..]);
    }
  }

  /** Whether a cell is drawn at all, by display mode and month style. */
  predicate ShowsCell(cfg: Config, date: CalendarDate)
  {
    match cfg.displayMode
    case Month => if cfg.monthStyle == Dynamic then date.isInCurrentMonth else true
    case Week => true
  }

  /** `visibleDates`: the row filtered by `ShowsCell`. */
  function VisibleDates(cfg: Config, weekData: seq<CalendarDate>): (r: seq<CalendarDate>)
    ensures forall d :: d in r <==> d in weekData && ShowsCell(cfg, d)
  {
    if cfg.displayMode == Month && cfg.monthStyle == Dynamic then InMonthOnly(weekData) else weekData
  }

  /**
   * In week mode, or in month mode with fixed rows, every cell is visible;
   * in month mode with dynamic rows exactly the in-month cells are, in the
   * row's order.
   */
  lemma VisibleDatesCases(cfg: Config, weekData: seq<CalendarDate>)
    ensures cfg.displayMode == Week || cfg.monthStyle == FixedWeeks ==> VisibleDates(cfg, weekData) == weekData
    ensures cfg.displayMode == Month && cfg.monthStyle == Dynamic ==>
      Subsequence(VisibleDates(cfg, weekData), weekData)
      && (forall d :: d in VisibleDates(cfg, weekData) <==> d in weekData && d.isInCurrentMonth)
  {
    InMonthOnlyKeepsOrder(weekData);
  }

  // ---------------------------------------------------------------------
  // Where the visible part starts

  /** `firstIndex { $0.date == date }` over the row. */
  function FirstIndexOfDate(weekData: seq<CalendarDate>, date: Instant): (r: Option<nat>)
    ensures r.Some? ==> (r.value < |weekData| && weekData[r.value].date == date
      && forall j :: 0 <= j < r.value ==> weekData[j].date != date)
    ensures r.None? ==> forall j :: 0 <= j < |weekData| ==> weekData[j].date != date
  {
    if |weekData| == 0 then None
    else if weekData[0].date == date then Some(0)
    else match FirstIndexOfDate(weekData[1..], date)
      case None => None
      case Some(k) => Some(k + 1)
  }

  /**
   * `visibleStartIndex`: with dynamic month style, the position in the row of
   * the first visible cell's date (0 when nothing is visible); otherwise 0.
   */
  function VisibleStartIndex(cfg: Config, weekData: seq<CalendarDate>): (r: nat)
    ensures cfg.monthStyle != Dynamic ==> r == 0
    ensures |VisibleDates(cfg, weekData)| == 0 ==> r == 0
    ensures r == 0 || r < |weekData|
  {
    if cfg.monthStyle == Dynamic then
      var visible := VisibleDates(cfg, weekData);
      if |visible| == 0 then 0
      else match FirstIndexOfDate(weekData, visible[0].date)
        case None => 0
        case Some(k) => k
    else 0
  }

  /** Dates strictly increase along the row, as they do on every generated page. */
  predicate Increasing(weekData: seq<CalendarDate>)
  {
    forall i, j :: 0 <= i < j < |weekData| ==> weekData[i].date < weekData[j].date
  }

  /** The first in-month cell sits at the first position whose cell is in the month. */
  lemma {:induction false} InMonthOnlyHead(weekData: seq<CalendarDate>)
    requires |InMonthOnly(weekData)| > 0
    ensures exists k :: (0 <= k < |weekData| && weekData[k] == InMonthOnly(weekData)[0]
      && weekData[k].isInCurrentMonth && forall j :: 0 <= j < k ==> !weekData[j].isInCurrentMonth)
  {
    if !weekData[0].isInCurrentMonth {
      InMonthOnlyHead(weekData[1..]);
      var k :| 0 <= k < |weekData[1..]| && weekData[1..][k] == InMonthOnly(weekData[1..])[0]
        && weekData[1..][k].isInCurrentMonth && forall j :: 0 <= j < k ==> !weekData[1..][j].isInCurrentMonth;
      assert weekData[k + 1] == weekData[1..][k];
      forall j | 0 <= j < k + 1
        ensures !weekData[j].isInCurrentMonth
      {
        if j > 0 {
          assert weekData[j] == weekData[1..][j - 1];
        }
      }
    } else {
      assert weekData[0] == InMonthOnly(weekData)[0];
    }
  }

  /**
   * On a month row with dynamic style whose dates increase, the bars start
   * under the first in-month cell: every cell before it is outside the month.
   */
  lemma StartIndexIsFirstInMonth(cfg: Config, weekData: seq<CalendarDate>)
    requires cfg.displayMode == Month && cfg.monthStyle == Dynamic
    requires Increasing(weekData)
    requires exists i :: 0 <= i < |weekData| && weekData[i].isInCurrentMonth
    ensures var r := VisibleStartIndex(cfg, weekData);
      r < |weekData| && weekData[r].isInCurrentMonth
      && forall j :: 0 <= j < r ==> !weekData[j].isInCurrentMonth
  {
    var i :| 0 <= i < |weekData| && weekData[i].isInCurrentMonth;
    assert weekData[i] in InMonthOnly(weekData);
    InMonthOnlyHead(weekData);
    var k :| 0 <= k < |weekData| && weekData[k] == InMonthOnly(weekData)[0]
      && weekData[k].isInCurrentMonth && forall j :: 0 <= j < k ==> !weekData[j].isInCurrentMonth;
    var found := FirstIndexOfDate(weekData, weekData[k].date);
    assert found == Some(k);
  }

  /** In week mode every cell is visible, so the bars start at the row's first column. */
  lemma WeekModeStartsAtZero(cfg: Config, weekData: seq<CalendarDate>)
    requires cfg.displayMode == Week
    ensures VisibleStartIndex(cfg, weekData) == 0
  {
    if cfg.monthStyle == Dynamic && |weekData| > 0 {
      assert FirstIndexOfDate(weekData, weekData[0].date) == Some(0);
    }
  }

  // ---------------------------------------------------------------------
  // Opacity and colours

  /** `dateOpacity(for:)`: fully drawn, hidden, or drawn at `otherMonthDateOpacity`. */
  function DateOpacity(cfg: Config, otherMonthDateOpacity: real, date: CalendarDate): (o: real)
    ensures cfg.displayMode == Week || date.isInCurrentMonth ==> o == 1.0
    ensures cfg.displayMode == Month && !date.isInCurrentMonth ==>
      o == if cfg.monthStyle == Dynamic then 0.0 else otherMonthDateOpacity
  {
    match cfg.displayMode
    case Month =>
      if cfg.monthStyle == Dynamic && !date.isInCurrentMonth then 0.0
      else if date.isInCurrentMonth then 1.0
      else otherMonthDateOpacity
    case Week => 1.0
  }

  /**
   * With a visible opacity for other months' days, a cell of the row is
   * fully transparent exactly when it is not among the visible dates.
   */
  lemma TransparentIffHidden(cfg: Config, otherMonthDateOpacity: real, weekData: seq<CalendarDate>, date: CalendarDate)
    requires otherMonthDateOpacity > 0.0
    requires date in weekData
    ensures DateOpacity(cfg, otherMonthDateOpacity, date) == 0.0 <==> date !in VisibleDates(cfg, weekData)
  {
  }

  /** Which appearance colour draws a day number. */
  datatype TextColor = SundayColor | SaturdayColor | WeekdayColor

  /** `foregroundColor(for:)`: by the weekday of the cell's date, 1 being Sunday and 7 Saturday. */
  function ForegroundColor(date: CalendarDate): (c: TextColor)
    ensures c == SundayColor <==> WeekdayOf(date.date) == 1
    ensures c == SaturdayColor <==> WeekdayOf(date.date) == 7
  {
    var weekday := WeekdayOf(date.date);
    if weekday == 1 then SundayColor
    else if weekday == 7 then SaturdayColor
    else WeekdayColor
  }

  /** Stepping `i` days forward turns the weekday `i` places. */
  lemma WeekdayAfter(n: int, i: int)
    ensures Weekday(n + i) == (Weekday(n) - 1 + i) % 7 + 1
  {
    var w := (n + 4) % 7;
    assert n + 4 == 7 * ((n + 4) / 7) + w;
    assert (n + i + 4) % 7 == (w + i) % 7;
  }

  /** Along consecutive days the weekday advances by one per cell, wrapping after Saturday. */
  lemma ConsecutiveWeekdays(row: seq<CalendarDate>, first: int)
    requires |row| > 0 && 0 <= first < 7 && WeekdayOf(row[0].date) == first + 1
    requires forall i :: 0 <= i < |row| ==> DayOf(row[i].date) == DayOf(row[0].date) + i
    ensures forall i :: 0 <= i < |row| ==> WeekdayOf(row[i].date) == (first + i) % 7 + 1
  {
    forall i | 0 <= i < |row|
      ensures WeekdayOf(row[i].date) == (first + i) % 7 + 1
    {
      WeekdayAfter(DayOf(row[0].date), i);
    }
  }

  /**
   * On a week row the Sunday colour falls on the column whose offset from the
   * configured first weekday reaches Sunday, and the Saturday colour on the
   * one before it: exactly one of each per row.
   */
  lemma WeekRowColors(weekStart: Instant, cfg: Config, selected: Option<Instant>, now: Instant, monthRef: Instant)
    ensures var row := WeekRow(weekStart, cfg, selected, now, monthRef);
      forall i :: 0 <= i < 7 ==>
        && (ForegroundColor(row[i]) == SundayColor <==> (cfg.startWeekDay.RawValue() + i) % 7 == 0)
        && (ForegroundColor(row[i]) == SaturdayColor <==> (cfg.startWeekDay.RawValue() + i) % 7 == 6)
  {
    var row := WeekRow(weekStart, cfg, selected, now, monthRef);
    WeekRowShape(weekStart, cfg, selected, now, monthRef);
    ConsecutiveWeekdays(row, cfg.startWeekDay.RawValue());
  }

  /** Which colour fills a day's circle. */
  datatype FillColor = TodayColor | Clear

  /** `backgroundColor(for:)`: the today colour on today's cell, clear elsewhere. */
  function BackgroundColor(date: CalendarDate): (c: FillColor)
    ensures c == TodayColor <==> date.isToday
  {
    if date.isToday then TodayColor else Clear
  }

  /** On a generated cell the today colour marks exactly the cell on the same day as `now`. */
  lemma TodayHighlight(date: Instant, selected: Option<Instant>, now: Instant, monthRef: Instant)
    ensures BackgroundColor(Cell(date, selected, now, monthRef)) == TodayColor <==> SameDay(date, now)
  {
  }

  // ---------------------------------------------------------------------
  // Event count

  /** The data source's `calendar(date:)`: the events it lists for a day. */
  datatype DataSource = DataSource(eventsOn: Instant -> seq<CalendarEvent>)

  /** `eventCount(for:)`: how many events the data source lists for the day, 0 without a data source. */
  function EventCount(dataSource: Option<DataSource>, date: Instant): (n: nat)
    ensures dataSource.None? ==> n == 0
    ensures dataSource.Some? ==> n == |dataSource.value.eventsOn(date)|
  {
    match dataSource
    case None => 0
    case Some(source) => |source.eventsOn(date)|
  }

  /** What `eventIndicator(for:)` draws under a day. */
  datatype Indicator = Dot | PlusCount(count: nat) | Nothing | Blank

  /**
   * `eventIndicator(for:)` for a given count: with events, a dot in the
   * dots style, "+count" in the count style and nothing drawn in the others;
   * without events, blank space of the same height.
   */
  function IndicatorFor(style: EventDisplayStyle, count: nat): (r: Indicator)
    ensures r == Blank <==> count == 0
    ensures count > 0 && style == Dots ==> r == Dot
    ensures count > 0 && style == Count ==> r == PlusCount(count)
    ensures count > 0 && style != Dots && style != Count ==> r == Nothing
    ensures r.PlusCount? ==> style == Count && r.count == count && count > 0
  {
    if count > 0 then
      match style
      case Dots => Dot
      case Count => PlusCount(count)
      case _ => Nothing
    else Blank
  }

  /**
   * Blank space is left under a day exactly when the data source lists no
   * events for it (or there is no data source); when it lists some, the dots
   * style draws a dot, the count style "+N" with their number, and the other
   * styles nothing.
   */
  lemma IndicatorMatchesEvents(style: EventDisplayStyle, dataSource: Option<DataSource>, date: Instant)
    ensures var r := IndicatorFor(style, EventCount(dataSource, date));
      var hasEvents := dataSource.Some? && |dataSource.value.eventsOn(date)| > 0;
      && (r == Blank <==> !hasEvents)
      && (hasEvents && style == Dots ==> r == Dot)
      && (hasEvents && style == Count ==> r == PlusCount(|dataSource.value.eventsOn(date)|))
      && (hasEvents && style != Dots && style != Count ==> r == Nothing)
  {
  }
}
