/**
 * Navigation state of `TSCalendarViewModel`
 * (Sources/Internal/Views/ViewModels/TSCalendarViewModel.swift).
 *
 * Each navigation method is first a pure transition on `NavState`, the
 * view model's stored properties; the class `TSCalendarViewModel` at the end
 * runs the same steps on fields and is proved to agree with the transitions.
 * The delegate is a log of the calls an attached delegate receives. `now`,
 * Foundation's `Date()` at the moment of the call, is a parameter of every
 * operation that reads the clock.
 */
module Navigation {
  import opened Wrappers
  import opened Gregorian
  import opened CalendarExt
  import opened Enums
  import opened CalendarConfig
  import opened CollectionExt
  import opened Grid

  /** The calendar's `firstWeekday` (1 = Sunday ... 7 = Saturday). */
  type WeekdayNumber = w: int | 1 <= w <= 7 witness 1

  /** The delegate callbacks, in the order the view model makes them. */
  datatype DelegateCall =
    | PageWillChange(date: Instant)
    | PageDidChange(date: Instant)
    | DidSelect(date: Instant)

  /** What a view model fixes when it is created. */
  datatype NavEnv = NavEnv(
    minimumDate: Option<Instant>,
    maximumDate: Option<Instant>,
    config: Config,
    firstWeekday: WeekdayNumber)

  /** The stored properties the navigation methods reassign, and the delegate log. */
  datatype NavState = NavState(
    displayedDates: seq<Instant>,
    datesData: seq<seq<seq<CalendarDate>>>,
    currentHeight: Option<real>,
    pendingAnimatedMove: Option<int>,
    selectedDate: Option<Instant>,
    calls: seq<DelegateCall>)

  // ---------------------------------------------------------------------
  // Reading the state

  /** `canMove(to:)`: false exactly when the date is before a set minimum or after a set maximum. */
  function CanMove(env: NavEnv, d: Instant): (ok: bool)
    ensures !ok <==> ((env.minimumDate.Some? && d < env.minimumDate.value)
                   || (env.maximumDate.Some? && d > env.maximumDate.value))
  {
    if env.minimumDate.Some? && d < env.minimumDate.value then false
    else if env.maximumDate.Some? && d > env.maximumDate.value then false
    else true
  }

  /** A date may be moved to exactly when it lies between the bounds, a missing bound admitting everything. */
  lemma CanMoveWithinBounds(env: NavEnv, d: Instant)
    ensures CanMove(env, d) <==> env.minimumDate.GetOr(d) <= d <= env.maximumDate.GetOr(d)
  {
  }

  /** Index of the current page: 1 of the three pages with paging, else the only page. */
  function CurrentIndex(env: NavEnv): int
  {
    if env.config.isPagingEnabled then 1 else 0
  }

  /** `currentDisplayedDate`: the current page's anchor, or `now` when there is none. */
  function CurrentDisplayedDate(env: NavEnv, s: NavState, now: Instant): (d: Instant)
    ensures CurrentIndex(env) < |s.displayedDates| ==> d == s.displayedDates[CurrentIndex(env)]
    ensures |s.displayedDates| <= CurrentIndex(env) ==> d == now
  {
    SafeGet(s.displayedDates, CurrentIndex(env)).GetOr(now)
  }

  /** The displayed dates after moving to `d`: the window of three anchors with paging, else `d` alone. */
  function DisplayedFor(env: NavEnv, d: Instant): seq<Instant>
  {
    if env.config.isPagingEnabled then DisplayedDatesFrom(env.config.displayMode, d, env.firstWeekday) else [d]
  }

  // ---------------------------------------------------------------------
  // Regenerating pages

  /** The page anchored at `d`: a month grid, or a one-row week grid flagged against `monthRef`. */
  function PageFor(env: NavEnv, d: Instant, selected: Option<Instant>, now: Instant, monthRef: Instant): seq<seq<CalendarDate>>
  {
    match env.config.displayMode
    case Month => MonthPage(d, env.config, selected, now)
    case Week => [WeekRow(d, env.config, selected, now, monthRef)]
  }

  /**
   * `generateAllDates()`: one page per displayed date with paging, otherwise
   * the page of the first displayed date, or nothing when there is none.
   */
  function GenerateAllDates(env: NavEnv, s: NavState, now: Instant): (r: NavState)
    ensures r == s.(datesData := r.datesData)
    ensures env.config.isPagingEnabled ==> |r.datesData| == |s.displayedDates|
    ensures !env.config.isPagingEnabled && |s.displayedDates| == 0 ==> r == s
    ensures !env.config.isPagingEnabled && |s.displayedDates| > 0 ==> |r.datesData| == 1
  {
    var dd := s.displayedDates;
    var monthRef := SafeGet(dd, 0).GetOr(now);
    if env.config.isPagingEnabled then
      s.(datesData := seq(|dd|, i requires 0 <= i < |dd| => PageFor(env, dd[i], s.selectedDate, now, monthRef)))
    else
      match SafeGet(dd, 0)
      case None => s
      case Some(d) => s.(datesData := [PageFor(env, d, s.selectedDate, now, monthRef)])
  }

  /** Page `i` of the regenerated data is the page of displayed date `i` (of the first one without paging). */
  lemma GeneratedPage(env: NavEnv, s: NavState, now: Instant, i: int)
    requires 0 <= i < |GenerateAllDates(env, s, now).datesData|
    requires env.config.isPagingEnabled || |s.displayedDates| > 0
    ensures 0 <= i < |s.displayedDates|
    ensures GenerateAllDates(env, s, now).datesData[i]
         == PageFor(env, s.displayedDates[i], s.selectedDate, now, SafeGet(s.displayedDates, 0).GetOr(now))
  {
  }

  // ---------------------------------------------------------------------
  // Auto-selection

  /**
   * `handleDateSelection(for:)`: with auto-selection on, select `now` when the
   * new anchor is in the current month, else the first day of its month or week.
   */
  function HandleDateSelection(env: NavEnv, s: NavState, nextDate: Instant, now: Instant): (r: NavState)
    ensures r == s.(selectedDate := r.selectedDate)
    ensures !env.config.autoSelect ==> r == s
    ensures env.config.autoSelect && SameMonth(nextDate, now) ==> r.selectedDate == Some(now)
    ensures env.config.autoSelect && !SameMonth(nextDate, now) && env.config.displayMode == Month ==>
      r.selectedDate == Some(StartOfMonth(nextDate))
    ensures env.config.autoSelect && !SameMonth(nextDate, now) && env.config.displayMode == Week ==>
      r.selectedDate == Some(WeekStart(nextDate, env.firstWeekday))
  {
    if !env.config.autoSelect then s
    else if SameMonth(nextDate, now) then s.(selectedDate := Some(now))
    else match env.config.displayMode
      case Month => s.(selectedDate := Some(StartOfMonth(nextDate)))
      case Week => s.(selectedDate := Some(WeekStart(nextDate, env.firstWeekday)))
  }

  // ---------------------------------------------------------------------
  // Moving between pages

  /** The anchor `value` pages on from the current one. */
  function TargetAnchor(env: NavEnv, s: NavState, value: int, now: Instant): Instant
  {
    DateByAdding(env.config.displayMode, value, CurrentDisplayedDate(env, s, now))
  }

  /**
   * `moveDate(by:)`: when the anchor `value` pages on is within bounds, show
   * its window, auto-select, regenerate the pages and report the new current
   * anchor; otherwise change nothing.
   */
  function AfterMoveDate(env: NavEnv, s: NavState, value: int, now: Instant): NavState
  {
    var next := TargetAnchor(env, s, value, now);
    if !CanMove(env, next) then s
    else
      var s1 := HandleDateSelection(env, s.(displayedDates := DisplayedFor(env, next)), next, now);
      var s2 := GenerateAllDates(env, s1, now);
      s2.(calls := s2.calls + [PageDidChange(CurrentDisplayedDate(env, s2, now))])
  }

  /** `willMoveDate(by:)`: when the target anchor is within bounds, announce it and size the view for it. */
  function AfterWillMoveDate(env: NavEnv, s: NavState, value: int, now: Instant): NavState
  {
    var next := TargetAnchor(env, s, value, now);
    if !CanMove(env, next) then s
    else s.(calls := s.calls + [PageWillChange(next)], currentHeight := CalculateHeight(next, env.config))
  }

  /** `willMoveDate` then `moveDate` by the same number of pages. */
  function AfterJump(env: NavEnv, s: NavState, value: int, now: Instant): NavState
  {
    AfterMoveDate(env, AfterWillMoveDate(env, s, value, now), value, now)
  }

  /** `12 * (targetYear - currentYear) + (targetMonth - currentMonth)`: the months from one date's month to another's. */
  function MonthDiff(from: Instant, to: Instant): (diff: int)
    ensures diff == MonthIndexOf(to) - MonthIndexOf(from)
    ensures diff == 0 <==> SameMonth(from, to)
  {
    Components(from);
    Components(to);
    (YearComponent(to) - YearComponent(from)) * 12 + (MonthComponent(to) - MonthComponent(from))
  }

  /** Two dates are in the same week (same `yearForWeekOfYear` and `weekOfYear`) for a calendar whose weeks begin on `firstWeekday`. */
  predicate SameWeek(a: Instant, b: Instant, firstWeekday: WeekdayNumber)
  {
    WeekStart(a, firstWeekday) == WeekStart(b, firstWeekday)
  }

  /** `calculateWeekDifference(from:to:)`: the whole weeks between the weeks of two dates. */
  function WeekDiff(from: Instant, to: Instant, firstWeekday: WeekdayNumber): (diff: int)
    ensures DayOf(WeekStart(to, firstWeekday)) == DayOf(WeekStart(from, firstWeekday)) + 7 * diff
    ensures diff == 0 <==> SameWeek(from, to, firstWeekday)
  {
    var a := DayOf(WeekStart(from, firstWeekday));
    var b := DayOf(WeekStart(to, firstWeekday));
    SameWeekdayApart(a, b);
    (b - a) / 7
  }

  /** Two days with the same weekday lie a whole number of weeks apart. */
  lemma SameWeekdayApart(a: int, b: int)
    requires Weekday(a) == Weekday(b)
    ensures (b - a) % 7 == 0
  {
    assert a + 4 == 7 * ((a + 4) / 7) + (a + 4) % 7;
    assert b + 4 == 7 * ((b + 4) / 7) + (b + 4) % 7;
    assert b - a == 7 * ((b + 4) / 7 - (a + 4) / 7);
  }

  /** Two dates fall on the same page: the same month, or the same week in week mode. */
  predicate OnSamePage(env: NavEnv, a: Instant, b: Instant)
  {
    match env.config.displayMode
    case Month => SameMonth(a, b)
    case Week => SameWeek(a, b, env.firstWeekday)
  }

  /** `moveTo`'s test that the target is not on the displayed page: year or month differ, or year-for-week or week differ. */
  function ShownElsewhere(env: NavEnv, current: Instant, target: Instant): (b: bool)
    ensures b <==> !OnSamePage(env, current, target)
  {
    SameMonthComponents(current, target);
    match env.config.displayMode
    case Month => YearComponent(current) != YearComponent(target) || MonthComponent(current) != MonthComponent(target)
    case Week => !SameWeek(current, target, env.firstWeekday)
  }

  /** The pages between two dates' pages: months in month mode, weeks in week mode. */
  function PageDistance(env: NavEnv, from: Instant, to: Instant): (diff: int)
    ensures diff == 0 <==> OnSamePage(env, from, to)
  {
    match env.config.displayMode
    case Month => MonthDiff(from, to)
    case Week => WeekDiff(from, to, env.firstWeekday)
  }

  /**
   * `moveTo(date:animated:)`: nothing when the day is out of bounds or its
   * page is already shown; a one-page step with animation only asks the
   * paging view to animate; any other distance jumps there at once.
   */
  function AfterMoveTo(env: NavEnv, s: NavState, date: Instant, animated: bool, now: Instant): NavState
  {
    var target := StartOfDay(date);
    var current := CurrentDisplayedDate(env, s, now);
    if !CanMove(env, target) || !ShownElsewhere(env, current, target) then s
    else
      var diff := PageDistance(env, current, target);
      if animated && (diff == 1 || diff == -1) then s.(pendingAnimatedMove := Some(if diff > 0 then 1 else -1))
      else AfterJump(env, s, diff, now)
  }

  /** Whether `moveDay` treats the target as staying on the displayed page: as written, it compares month numbers only. */
  predicate MoveDayStaysAsWritten(current: Instant, target: Instant)
  {
    MonthComponent(current) == MonthComponent(target)
  }

  /** `moveDay(by:animated:)` as written: the same-page test compares month numbers only. */
  function AfterMoveDayAsWritten(env: NavEnv, s: NavState, days: int, animated: bool, now: Instant): NavState
  {
    var target := AddDays(s.selectedDate.GetOr(now), days);
    if !CanMove(env, target) then s
    else
      var s1 := s.(selectedDate := Some(target));
      if MoveDayStaysAsWritten(CurrentDisplayedDate(env, s1, now), target) then GenerateAllDates(env, s1, now)
      else
        var s2 := AfterMoveTo(env, s1, target, animated, now);
        if !animated then GenerateAllDates(env, s2, now) else s2
  }

  /**
   * `moveDay(by:animated:)` with the same-page test of `moveTo`: move the
   * selection by whole days without telling the delegate, and follow it to
   * its page when it leaves the displayed one.
   */
  function AfterMoveDay(env: NavEnv, s: NavState, days: int, animated: bool, now: Instant): NavState
  {
    var target := AddDays(s.selectedDate.GetOr(now), days);
    if !CanMove(env, target) then s
    else
      var s1 := s.(selectedDate := Some(target));
      if OnSamePage(env, CurrentDisplayedDate(env, s1, now), target) then GenerateAllDates(env, s1, now)
      else
        var s2 := AfterMoveTo(env, s1, target, animated, now);
        if !animated then GenerateAllDates(env, s2, now) else s2
  }

  /**
   * `moveMonth(by:animated:)`: when the date `months` months on is within
   * bounds, auto-select today (same month) or that month's first day, then
   * move to it.
   */
  function AfterMoveMonth(env: NavEnv, s: NavState, months: int, animated: bool, now: Instant): NavState
  {
    var target := AddMonths(CurrentDisplayedDate(env, s, now), months);
    if !CanMove(env, target) then s
    else
      var s1 :=
        if !env.config.autoSelect then s
        else if SameMonth(target, now) then s.(selectedDate := Some(StartOfDay(now)))
        else s.(selectedDate := Some(StartOfMonth(target)));
      var s2 := AfterMoveTo(env, s1, target, animated, now);
      if !animated then GenerateAllDates(env, s2, now) else s2
  }

  /**
   * `selectDate(_:)` as written: the page test and the distance are in months
   * whatever the display mode, so in week mode the jump is that many weeks.
   */
  function AfterSelectDateAsWritten(env: NavEnv, s: NavState, date: Instant, now: Instant): NavState
  {
    var day := StartOfDay(date);
    if !CanMove(env, day) then s
    else
      var s1 := s.(selectedDate := Some(day));
      var current := CurrentDisplayedDate(env, s1, now);
      var s2 :=
        if YearComponent(current) != YearComponent(day) || MonthComponent(current) != MonthComponent(day) then
          AfterJump(env, s1, MonthDiff(current, day), now)
        else GenerateAllDates(env, s1, now);
      s2.(calls := s2.calls + [DidSelect(day)])
  }

  /**
   * `selectDate(_:)` with the page test and distance of `moveTo`: select the
   * start of the day when it is within bounds, jump to its page when another
   * is shown (else regenerate the pages), and report the selection.
   */
  function AfterSelectDate(env: NavEnv, s: NavState, date: Instant, now: Instant): NavState
  {
    var day := StartOfDay(date);
    if !CanMove(env, day) then s
    else
      var s1 := s.(selectedDate := Some(day));
      var current := CurrentDisplayedDate(env, s1, now);
      var s2 :=
        if ShownElsewhere(env, current, day) then AfterJump(env, s1, PageDistance(env, current, day), now)
        else GenerateAllDates(env, s1, now);
      s2.(calls := s2.calls + [DidSelect(day)])
  }

  /** The state `init` builds: the window around the initial date, its pages, and its height. */
  function InitialState(env: NavEnv, initialDate: Instant, selectedDate: Option<Instant>, now: Instant): NavState
  {
    var s := NavState(DisplayedFor(env, initialDate), [], None, None, selectedDate, []);
    GenerateAllDates(env, s, now).(currentHeight := CalculateHeight(initialDate, env.config))
  }

  // ---------------------------------------------------------------------
  // Properties of the transitions

  /** The number of `didSelect` calls in a delegate log. */
  function Selections(calls: seq<DelegateCall>): (n: nat)
    ensures n <= |calls|
  {
    if |calls| == 0 then 0
    else Selections(calls[..|calls| - 1]) + (if calls[|calls| - 1].DidSelect? then 1 else 0)
  }

  /** Appending one call adds a selection exactly when the call is `didSelect`. */
  lemma SelectionsSnoc(calls: seq<DelegateCall>, c: DelegateCall)
    ensures Selections(calls + [c]) == Selections(calls) + if c.DidSelect? then 1 else 0
  {
    assert (calls + [c])[..|calls|] == calls;
  }

  /**
   * `moveDate(by:)`: out of bounds it changes nothing; otherwise it shows the
   * window of the target anchor, reports the new current anchor once, keeps
   * the height and the pending animation, and keeps the selection unless
   * auto-selection is on.
   */
  lemma MoveDateEffect(env: NavEnv, s: NavState, value: int, now: Instant)
    ensures var r := AfterMoveDate(env, s, value, now);
      var next := TargetAnchor(env, s, value, now);
      && (!CanMove(env, next) ==> r == s)
      && (CanMove(env, next) ==>
            && r.displayedDates == DisplayedFor(env, next)
            && r.calls == s.calls + [PageDidChange(CurrentDisplayedDate(env, r, now))]
            && r.currentHeight == s.currentHeight
            && r.pendingAnimatedMove == s.pendingAnimatedMove
            && (!env.config.autoSelect ==> r.selectedDate == s.selectedDate))
  {
  }

  /** Two instants on the same day at the same time of day are equal. */
  lemma InstantExt(a: Instant, b: Instant)
    requires DayOf(a) == DayOf(b) && TimeOfDay(a) == TimeOfDay(b)
    ensures a == b
  {
  }

  /** The middle anchor of the window around `d` is the anchor of `d`'s own page. */
  lemma WindowMiddle(env: NavEnv, d: Instant)
    requires env.config.isPagingEnabled
    ensures |DisplayedFor(env, d)| == 3
    ensures DisplayedFor(env, d)[1] == PageAnchor(env.config.displayMode, d, env.firstWeekday)
  {
    var mode := env.config.displayMode;
    if mode == Month {
      MonthAnchorAt(d, 0);
      InstantExt(AddMonths(StartOfMonth(d), 0), StartOfMonth(d));
    }
  }

  /**
   * After a move in bounds, the current anchor is the target anchor's page
   * anchor (the target itself without paging); in month mode it lies `value`
   * months after the previous current date.
   */
  lemma MoveDateLands(env: NavEnv, s: NavState, value: int, now: Instant)
    requires CanMove(env, TargetAnchor(env, s, value, now))
    ensures var next := TargetAnchor(env, s, value, now);
      var current := CurrentDisplayedDate(env, AfterMoveDate(env, s, value, now), now);
      && current == (if env.config.isPagingEnabled then PageAnchor(env.config.displayMode, next, env.firstWeekday) else next)
      && (env.config.displayMode == Month ==>
            MonthIndexOf(current) == MonthIndexOf(CurrentDisplayedDate(env, s, now)) + value)
  {
    var next := TargetAnchor(env, s, value, now);
    var r := AfterMoveDate(env, s, value, now);
    MoveDateEffect(env, s, value, now);
    if env.config.isPagingEnabled {
      WindowMiddle(env, next);
    }
    if env.config.displayMode == Month {
      AddMonthsMonth(CurrentDisplayedDate(env, s, now), value);
      if env.config.isPagingEnabled {
        assert SameMonth(StartOfMonth(next), next);
      }
    }
  }

  /** `willMoveDate(by:)` only announces the target anchor, when it is in bounds, and resizes for it. */
  lemma WillMoveDateEffect(env: NavEnv, s: NavState, value: int, now: Instant)
    ensures var r := AfterWillMoveDate(env, s, value, now);
      var next := TargetAnchor(env, s, value, now);
      && r.displayedDates == s.displayedDates && r.datesData == s.datesData
      && r.selectedDate == s.selectedDate && r.pendingAnimatedMove == s.pendingAnimatedMove
      && r.calls == s.calls + (if CanMove(env, next) then [PageWillChange(next)] else [])
      && r.currentHeight == (if CanMove(env, next) then CalculateHeight(next, env.config) else s.currentHeight)
  {
  }

  /**
   * `willMoveDate` then `moveDate`: when the target anchor is in bounds the
   * delegate hears the change announced and done, and never a selection.
   */
  lemma JumpEffect(env: NavEnv, s: NavState, value: int, now: Instant)
    ensures var r := AfterJump(env, s, value, now);
      var next := TargetAnchor(env, s, value, now);
      && (!CanMove(env, next) ==> r == s)
      && (CanMove(env, next) ==>
            && r.displayedDates == DisplayedFor(env, next)
            && r.calls == s.calls + [PageWillChange(next), PageDidChange(CurrentDisplayedDate(env, r, now))]
            && r.currentHeight == CalculateHeight(next, env.config)
            && r.pendingAnimatedMove == s.pendingAnimatedMove
            && (!env.config.autoSelect ==> r.selectedDate == s.selectedDate))
      && Selections(r.calls) == Selections(s.calls)
  {
    var next := TargetAnchor(env, s, value, now);
    var w := AfterWillMoveDate(env, s, value, now);
    var r := AfterJump(env, s, value, now);
    WillMoveDateEffect(env, s, value, now);
    assert TargetAnchor(env, w, value, now) == next;
    MoveDateEffect(env, w, value, now);
    if CanMove(env, next) {
      var did := PageDidChange(CurrentDisplayedDate(env, r, now));
      SelectionsSnoc(s.calls, PageWillChange(next));
      SelectionsSnoc(s.calls + [PageWillChange(next)], did);
      assert r.calls == s.calls + [PageWillChange(next)] + [did];
    }
  }

  /** After a jump in bounds the current anchor is the target's page anchor (the target without paging). */
  lemma JumpLands(env: NavEnv, s: NavState, value: int, now: Instant)
    requires CanMove(env, TargetAnchor(env, s, value, now))
    ensures var next := TargetAnchor(env, s, value, now);
      var current := CurrentDisplayedDate(env, AfterJump(env, s, value, now), now);
      && current == (if env.config.isPagingEnabled then PageAnchor(env.config.displayMode, next, env.firstWeekday) else next)
      && (env.config.displayMode == Month ==>
            MonthIndexOf(current) == MonthIndexOf(CurrentDisplayedDate(env, s, now)) + value)
  {
    var w := AfterWillMoveDate(env, s, value, now);
    WillMoveDateEffect(env, s, value, now);
    assert TargetAnchor(env, w, value, now) == TargetAnchor(env, s, value, now);
    MoveDateLands(env, w, value, now);
  }

  /** In week mode a jump in bounds moves the week of the current anchor by exactly `value` weeks. */
  lemma JumpWeeks(env: NavEnv, s: NavState, value: int, now: Instant)
    requires env.config.displayMode == Week
    requires CanMove(env, TargetAnchor(env, s, value, now))
    ensures DayOf(WeekStart(CurrentDisplayedDate(env, AfterJump(env, s, value, now), now), env.firstWeekday))
         == DayOf(WeekStart(CurrentDisplayedDate(env, s, now), env.firstWeekday)) + 7 * value
  {
    var current := CurrentDisplayedDate(env, s, now);
    var next := TargetAnchor(env, s, value, now);
    JumpLands(env, s, value, now);
    WeekStartShift(current, value, env.firstWeekday);
    if env.config.isPagingEnabled {
      WeekStartIdempotent(next, env.firstWeekday);
    }
  }

  /** Jumping by the page distance to a date, when its anchor is in bounds, shows that date's page. */
  lemma JumpReachesPage(env: NavEnv, s: NavState, target: Instant, now: Instant)
    requires CanMove(env, TargetAnchor(env, s, PageDistance(env, CurrentDisplayedDate(env, s, now), target), now))
    ensures OnSamePage(env, CurrentDisplayedDate(env, AfterJump(env, s, PageDistance(env, CurrentDisplayedDate(env, s, now), target), now), now), target)
  {
    var current := CurrentDisplayedDate(env, s, now);
    var diff := PageDistance(env, current, target);
    var landed := CurrentDisplayedDate(env, AfterJump(env, s, diff, now), now);
    match env.config.displayMode
    case Month =>
      JumpLands(env, s, diff, now);
    case Week =>
      JumpWeeks(env, s, diff, now);
      InstantExt(WeekStart(landed, env.firstWeekday), WeekStart(target, env.firstWeekday));
  }

  /**
   * `moveTo(date:animated:)`: out of bounds, or with the day's page already
   * shown, nothing changes; a one-page animated step only records the
   * direction for the paging view; it never selects and, without
   * auto-selection, never changes the selection.
   */
  lemma MoveToEffect(env: NavEnv, s: NavState, date: Instant, animated: bool, now: Instant)
    ensures var r := AfterMoveTo(env, s, date, animated, now);
      var target := StartOfDay(date);
      var current := CurrentDisplayedDate(env, s, now);
      var diff := PageDistance(env, current, target);
      && (!CanMove(env, target) || OnSamePage(env, current, date) ==> r == s)
      && (CanMove(env, target) && !OnSamePage(env, current, date) && animated && (diff == 1 || diff == -1) ==>
            r == s.(pendingAnimatedMove := Some(diff)))
      && (!env.config.autoSelect ==> r.selectedDate == s.selectedDate)
      && Selections(r.calls) == Selections(s.calls)
  {
    var current := CurrentDisplayedDate(env, s, now);
    JumpEffect(env, s, PageDistance(env, current, StartOfDay(date)), now);
  }

  /**
   * Unless it only records an animation, `moveTo` shows the day's page
   * whenever the day and the anchor of its page are within bounds.
   */
  lemma MoveToReaches(env: NavEnv, s: NavState, date: Instant, animated: bool, now: Instant)
    requires CanMove(env, StartOfDay(date))
    requires var diff := PageDistance(env, CurrentDisplayedDate(env, s, now), StartOfDay(date));
      && !(animated && (diff == 1 || diff == -1))
      && CanMove(env, TargetAnchor(env, s, diff, now))
    ensures OnSamePage(env, CurrentDisplayedDate(env, AfterMoveTo(env, s, date, animated, now), now), date)
  {
    var current := CurrentDisplayedDate(env, s, now);
    if !OnSamePage(env, current, StartOfDay(date)) {
      JumpReachesPage(env, s, StartOfDay(date), now);
    }
  }

  /**
   * In month mode with a month's first day displayed, a minimum date later
   * than the first of its month keeps `moveTo` from showing that month even
   * for a date after the minimum: the month's anchor is out of bounds.
   */
  lemma MoveToMinimumMonthBlocked(env: NavEnv, s: NavState, date: Instant, now: Instant)
    requires env.config.displayMode == Month && env.minimumDate.Some?
    requires var current := CurrentDisplayedDate(env, s, now);
      TimeOfDay(current) == 0 && DayOf(current) == MonthStart(MonthIndexOf(current))
    requires StartOfMonth(env.minimumDate.value) < env.minimumDate.value <= StartOfDay(date)
    requires SameMonth(date, env.minimumDate.value)
    requires env.maximumDate.None?
    ensures CanMove(env, StartOfDay(date))
    ensures AfterMoveTo(env, s, date, false, now) == s
  {
    var current := CurrentDisplayedDate(env, s, now);
    var diff := MonthDiff(current, StartOfDay(date));
    var anchor := TargetAnchor(env, s, diff, now);
    assert anchor == StartOfMonth(env.minimumDate.value) by {
      assert StartOfMonth(current) == current by {
        InstantExt(StartOfMonth(current), current);
      }
      MonthAnchorAt(current, diff);
      InstantExt(anchor, StartOfMonth(env.minimumDate.value));
    }
    JumpEffect(env, s, diff, now);
  }

  /**
   * `selectDate(_:)`: out of bounds nothing changes; otherwise the delegate
   * hears exactly one more selection, of the day's start, as the last call,
   * and the day stays selected unless a jump to another month auto-selected
   * another date.
   */
  lemma SelectDateEffect(env: NavEnv, s: NavState, date: Instant, now: Instant)
    ensures var r := AfterSelectDateAsWritten(env, s, date, now);
      var day := StartOfDay(date);
      && (!CanMove(env, day) ==> r == s)
      && (CanMove(env, day) ==>
            && |r.calls| > 0 && r.calls[|r.calls| - 1] == DidSelect(day)
            && Selections(r.calls) == Selections(s.calls) + 1
            && (!env.config.autoSelect || SameMonth(CurrentDisplayedDate(env, s, now), day) ==>
                  r.selectedDate == Some(day)))
  {
    var day := StartOfDay(date);
    if CanMove(env, day) {
      var s1 := s.(selectedDate := Some(day));
      var current := CurrentDisplayedDate(env, s1, now);
      SameMonthComponents(current, day);
      var s2 :=
        if !SameMonth(current, day) then AfterJump(env, s1, MonthDiff(current, day), now)
        else GenerateAllDates(env, s1, now);
      JumpEffect(env, s1, MonthDiff(current, day), now);
      SelectionsSnoc(s2.calls, DidSelect(day));
    }
  }

  /** Selecting a day within bounds whose page anchor is within bounds leaves that day's page displayed. */
  lemma SelectDateShowsDay(env: NavEnv, s: NavState, date: Instant, now: Instant)
    requires CanMove(env, StartOfDay(date))
    requires CanMove(env, TargetAnchor(env, s, PageDistance(env, CurrentDisplayedDate(env, s, now), StartOfDay(date)), now))
    ensures OnSamePage(env, CurrentDisplayedDate(env, AfterSelectDate(env, s, date, now), now), date)
  {
    var day := StartOfDay(date);
    var s1 := s.(selectedDate := Some(day));
    if !OnSamePage(env, CurrentDisplayedDate(env, s, now), day) {
      assert TargetAnchor(env, s1, PageDistance(env, CurrentDisplayedDate(env, s, now), day), now)
          == TargetAnchor(env, s, PageDistance(env, CurrentDisplayedDate(env, s, now), day), now);
      JumpReachesPage(env, s1, day, now);
    }
  }

  /**
   * With auto-selection on, selecting a day of another month ends with the
   * selection `moveDate` makes for the new anchor (today or the page's first
   * day), while the delegate was told the tapped day was selected.
   */
  lemma SelectDateAcrossPages(env: NavEnv, s: NavState, date: Instant, now: Instant)
    requires env.config.autoSelect
    requires CanMove(env, StartOfDay(date)) && !SameMonth(CurrentDisplayedDate(env, s, now), StartOfDay(date))
    requires CanMove(env, TargetAnchor(env, s, MonthDiff(CurrentDisplayedDate(env, s, now), StartOfDay(date)), now))
    ensures var r := AfterSelectDateAsWritten(env, s, date, now);
      var next := TargetAnchor(env, s, MonthDiff(CurrentDisplayedDate(env, s, now), StartOfDay(date)), now);
      && r.selectedDate == Some(if SameMonth(next, now) then now else PageAnchor(env.config.displayMode, next, env.firstWeekday))
      && r.calls[|r.calls| - 1] == DidSelect(StartOfDay(date))
  {
    var day := StartOfDay(date);
    var s1 := s.(selectedDate := Some(day));
    SameMonthComponents(CurrentDisplayedDate(env, s, now), day);
    var diff := MonthDiff(CurrentDisplayedDate(env, s, now), day);
    var w := AfterWillMoveDate(env, s1, diff, now);
    WillMoveDateEffect(env, s1, diff, now);
    assert TargetAnchor(env, w, diff, now) == TargetAnchor(env, s, diff, now);
  }

  /** In month mode the `selectDate` as written and the corrected one agree. */
  lemma SelectDateAgreesInMonthMode(env: NavEnv, s: NavState, date: Instant, now: Instant)
    requires env.config.displayMode == Month
    ensures AfterSelectDateAsWritten(env, s, date, now) == AfterSelectDate(env, s, date, now)
  {
  }

  /**
   * In week mode, selecting a day of the displayed week that lies in another
   * month makes the `selectDate` as written move by the month difference in
   * weeks, so the selected day's week is no longer shown; the corrected
   * `selectDate` keeps the page.
   */
  lemma SelectDateAsWrittenLeavesWeek(env: NavEnv, s: NavState, date: Instant, now: Instant)
    requires env.config.displayMode == Week
    requires CanMove(env, StartOfDay(date))
    requires SameWeek(CurrentDisplayedDate(env, s, now), date, env.firstWeekday)
    requires !SameMonth(CurrentDisplayedDate(env, s, now), date)
    requires CanMove(env, TargetAnchor(env, s, MonthDiff(CurrentDisplayedDate(env, s, now), StartOfDay(date)), now))
    ensures !OnSamePage(env, CurrentDisplayedDate(env, AfterSelectDateAsWritten(env, s, date, now), now), date)
    ensures CurrentDisplayedDate(env, AfterSelectDate(env, s, date, now), now) == CurrentDisplayedDate(env, s, now)
  {
    var day := StartOfDay(date);
    var s1 := s.(selectedDate := Some(day));
    var current := CurrentDisplayedDate(env, s, now);
    var md := MonthDiff(current, day);
    assert md != 0;
    assert TargetAnchor(env, s1, md, now) == TargetAnchor(env, s, md, now);
    JumpWeeks(env, s1, md, now);
    SameMonthComponents(current, day);
  }

  /**
   * `moveDay(by:animated:)`: out of bounds nothing changes; it never reports
   * a selection, and the moved day stays selected unless the page changed
   * with auto-selection on.
   */
  lemma MoveDayEffect(env: NavEnv, s: NavState, days: int, animated: bool, now: Instant)
    ensures var r := AfterMoveDayAsWritten(env, s, days, animated, now);
      var target := AddDays(s.selectedDate.GetOr(now), days);
      && (!CanMove(env, target) ==> r == s)
      && (CanMove(env, target) && (!env.config.autoSelect || OnSamePage(env, CurrentDisplayedDate(env, s, now), target)) ==>
            r.selectedDate == Some(target))
      && Selections(r.calls) == Selections(s.calls)
  {
    var target := AddDays(s.selectedDate.GetOr(now), days);
    if CanMove(env, target) {
      var s1 := s.(selectedDate := Some(target));
      var current := CurrentDisplayedDate(env, s1, now);
      if !MoveDayStaysAsWritten(current, target) {
        MoveToEffect(env, s1, target, animated, now);
        var s2 := AfterMoveTo(env, s1, target, animated, now);
        var r := if !animated then GenerateAllDates(env, s2, now) else s2;
        assert r.selectedDate == s2.selectedDate && r.calls == s2.calls;
      }
    }
  }

  /** Without animation, the moved selection's page is shown when the day and its page anchor are within bounds. */
  lemma MoveDayFollows(env: NavEnv, s: NavState, days: int, now: Instant)
    requires var target := AddDays(s.selectedDate.GetOr(now), days);
      && CanMove(env, target) && CanMove(env, StartOfDay(target))
      && CanMove(env, TargetAnchor(env, s, PageDistance(env, CurrentDisplayedDate(env, s, now), StartOfDay(target)), now))
    ensures OnSamePage(env, CurrentDisplayedDate(env, AfterMoveDay(env, s, days, false, now), now),
                       AddDays(s.selectedDate.GetOr(now), days))
  {
    var target := AddDays(s.selectedDate.GetOr(now), days);
    var s1 := s.(selectedDate := Some(target));
    if !OnSamePage(env, CurrentDisplayedDate(env, s, now), target) {
      assert TargetAnchor(env, s1, PageDistance(env, CurrentDisplayedDate(env, s, now), StartOfDay(target)), now)
          == TargetAnchor(env, s, PageDistance(env, CurrentDisplayedDate(env, s, now), StartOfDay(target)), now);
      MoveToReaches(env, s1, target, false, now);
    }
  }

  /**
   * With the first displayed month's date selected, moving the selection by
   * the days to the same date a year on leaves the `moveDay` as written on
   * the old page: the month numbers agree, so the selected month is not shown.
   */
  lemma MoveDayAsWrittenYearAway(env: NavEnv, s: NavState, now: Instant)
    requires env.config.displayMode == Month && !env.config.isPagingEnabled
    requires env.minimumDate.None? && env.maximumDate.None?
    requires |s.displayedDates| == 1 && s.selectedDate == Some(s.displayedDates[0])
    ensures var t := s.displayedDates[0];
      var days := DayOf(AddMonths(t, 12)) - DayOf(t);
      var r := AfterMoveDayAsWritten(env, s, days, false, now);
      && r.selectedDate == Some(AddMonths(t, 12))
      && r.displayedDates == s.displayedDates
      && !OnSamePage(env, CurrentDisplayedDate(env, r, now), AddMonths(t, 12))
  {
    var t := s.displayedDates[0];
    YearAway(t);
    MoveDayAsWrittenMissesTarget(env, s, AddMonths(t, 12), now);
  }

  /**
   * Without bounds, paging or animation, a `moveDay` as written to a date `u`
   * in another month with the displayed month's number selects `u` but keeps
   * the displayed date, so the selection is not on the page.
   */
  lemma MoveDayAsWrittenMissesTarget(env: NavEnv, s: NavState, u: Instant, now: Instant)
    requires env.config.displayMode == Month && !env.config.isPagingEnabled
    requires env.minimumDate.None? && env.maximumDate.None?
    requires |s.displayedDates| == 1 && s.selectedDate == Some(s.displayedDates[0])
    requires var t := s.displayedDates[0];
      MonthComponent(u) == MonthComponent(t) && !SameMonth(t, u) && AddDays(t, DayOf(u) - DayOf(t)) == u
    ensures var t := s.displayedDates[0];
      var r := AfterMoveDayAsWritten(env, s, DayOf(u) - DayOf(t), false, now);
      && r.selectedDate == Some(u)
      && r.displayedDates == s.displayedDates
      && !OnSamePage(env, CurrentDisplayedDate(env, r, now), u)
  {
    var s1 := s.(selectedDate := Some(u));
    assert CurrentDisplayedDate(env, s1, now) == s.displayedDates[0];
  }

  /** The same date a year on has the same month number but is in another month, a whole number of days later. */
  lemma YearAway(t: Instant)
    ensures var u := AddMonths(t, 12);
      && MonthComponent(u) == MonthComponent(t) && !SameMonth(t, u)
      && AddDays(t, DayOf(u) - DayOf(t)) == u
  {
    var u := AddMonths(t, 12);
    AddMonthsMonth(t, 12);
    AddDaysDay(t, DayOf(u) - DayOf(t));
    InstantExt(AddDays(t, DayOf(u) - DayOf(t)), u);
    Components(t);
    Components(u);
  }

  /**
   * `moveMonth(by:animated:)`: out of bounds nothing changes; it never
   * reports a selection and, without auto-selection, keeps the selection.
   */
  lemma MoveMonthEffect(env: NavEnv, s: NavState, months: int, animated: bool, now: Instant)
    ensures var r := AfterMoveMonth(env, s, months, animated, now);
      && (!CanMove(env, AddMonths(CurrentDisplayedDate(env, s, now), months)) ==> r == s)
      && (!env.config.autoSelect ==> r.selectedDate == s.selectedDate)
      && Selections(r.calls) == Selections(s.calls)
  {
    var target := AddMonths(CurrentDisplayedDate(env, s, now), months);
    var s1 :=
      if !env.config.autoSelect then s
      else if SameMonth(target, now) then s.(selectedDate := Some(StartOfDay(now)))
      else s.(selectedDate := Some(StartOfMonth(target)));
    MoveToEffect(env, s1, target, animated, now);
  }

  /**
   * In month mode, without animation and within bounds, `moveMonth` shows
   * the month `months` months after the current one.
   */
  lemma MoveMonthReaches(env: NavEnv, s: NavState, months: int, now: Instant)
    requires env.config.displayMode == Month
    requires var target := AddMonths(CurrentDisplayedDate(env, s, now), months);
      && CanMove(env, target) && CanMove(env, StartOfDay(target))
      && CanMove(env, TargetAnchor(env, s, months, now))
    ensures MonthIndexOf(CurrentDisplayedDate(env, AfterMoveMonth(env, s, months, false, now), now))
         == MonthIndexOf(CurrentDisplayedDate(env, s, now)) + months
  {
    var current := CurrentDisplayedDate(env, s, now);
    var target := AddMonths(current, months);
    AddMonthsMonth(current, months);
    var s1 :=
      if !env.config.autoSelect then s
      else if SameMonth(target, now) then s.(selectedDate := Some(StartOfDay(now)))
      else s.(selectedDate := Some(StartOfMonth(target)));
    assert PageDistance(env, current, StartOfDay(target)) == months;
    assert TargetAnchor(env, s1, months, now) == TargetAnchor(env, s, months, now);
    MoveToReaches(env, s1, target, false, now);
  }

  /** `init` shows the window of the initial date, sized for it, with nothing reported and no animation pending. */
  lemma InitialStateShape(env: NavEnv, initialDate: Instant, selectedDate: Option<Instant>, now: Instant)
    ensures var r := InitialState(env, initialDate, selectedDate, now);
      && r.displayedDates == DisplayedFor(env, initialDate)
      && CurrentDisplayedDate(env, r, now)
         == (if env.config.isPagingEnabled then PageAnchor(env.config.displayMode, initialDate, env.firstWeekday) else initialDate)
      && |r.datesData| == |r.displayedDates|
      && r.selectedDate == selectedDate && r.calls == [] && r.pendingAnimatedMove.None?
      && r.currentHeight == CalculateHeight(initialDate, env.config)
  {
    if env.config.isPagingEnabled {
      WindowMiddle(env, initialDate);
    }
  }

  // ---------------------------------------------------------------------
  // The view model

  /**
   * `TSCalendarViewModel`: the bounds, configuration and calendar are fixed
   * at creation; the navigation methods reassign the stored properties as
   * the transitions above describe, `moveDay` and `selectDate` as written.
   */
  class TSCalendarViewModel {
    const minimumDate: Option<Instant>
    const maximumDate: Option<Instant>
    const config: Config
    const firstWeekday: WeekdayNumber

    var displayedDates: seq<Instant>
    var datesData: seq<seq<seq<CalendarDate>>>
    var currentHeight: Option<real>
    var pendingAnimatedMove: Option<int>
    var selectedDate: Option<Instant>
    var calls: seq<DelegateCall>

    function Env(): NavEnv
    {
      NavEnv(minimumDate, maximumDate, config, firstWeekday)
    }

    function State(): NavState
      reads this
    {
      NavState(displayedDates, datesData, currentHeight, pendingAnimatedMove, selectedDate, calls)
    }

    /** `currentDisplayedDate`. */
    function CurrentDate(now: Instant): Instant
      reads this
    {
      CurrentDisplayedDate(Env(), State(), now)
    }

    constructor(initialDate: Instant, minimumDate: Option<Instant>, maximumDate: Option<Instant>,
                selectedDate: Option<Instant>, config: Config, firstWeekday: WeekdayNumber, now: Instant)
      ensures Env() == NavEnv(minimumDate, maximumDate, config, firstWeekday)
      ensures State() == InitialState(Env(), initialDate, selectedDate, now)
    {
      this.minimumDate := minimumDate;
      this.maximumDate := maximumDate;
      this.selectedDate := selectedDate;
      this.config := config;
      this.firstWeekday := firstWeekday;
      this.displayedDates :=
        if config.isPagingEnabled then DisplayedDatesFrom(config.displayMode, initialDate, firstWeekday) else [initialDate];
      this.datesData := [];
      this.currentHeight := None;
      this.pendingAnimatedMove := None;
      this.calls := [];
      new;
      GenerateDates(now);
      UpdateHeight(initialDate);
    }

    method MoveDate(value: int, now: Instant)
      modifies this
      ensures State() == AfterMoveDate(Env(), old(State()), value, now)
    {
      var next := DateByAdding(config.displayMode, value, CurrentDate(now));
      if !CanMove(Env(), next) {
        return;
      }
      displayedDates := DisplayedFor(Env(), next);
      HandleSelection(next, now);
      GenerateDates(now);
      calls := calls + [PageDidChange(CurrentDate(now))];
    }

    method WillMoveDate(value: int, now: Instant)
      modifies this
      ensures State() == AfterWillMoveDate(Env(), old(State()), value, now)
    {
      var next := DateByAdding(config.displayMode, value, CurrentDate(now));
      if !CanMove(Env(), next) {
        return;
      }
      calls := calls + [PageWillChange(next)];
      UpdateHeight(next);
    }

    method MoveTo(date: Instant, animated: bool, now: Instant)
      modifies this
      ensures State() == AfterMoveTo(Env(), old(State()), date, animated, now)
    {
      var target := StartOfDay(date);
      if !CanMove(Env(), target) {
        return;
      }
      var current := CurrentDate(now);
      if ShownElsewhere(Env(), current, target) {
        var diff := PageDistance(Env(), current, target);
        if animated && (diff == 1 || diff == -1) {
          pendingAnimatedMove := Some(if diff > 0 then 1 else -1);
        } else {
          WillMoveDate(diff, now);
          MoveDate(diff, now);
        }
      }
    }

    method MoveDay(days: int, animated: bool, now: Instant)
      modifies this
      ensures State() == AfterMoveDayAsWritten(Env(), old(State()), days, animated, now)
    {
      var target := AddDays(selectedDate.GetOr(now), days);
      if !CanMove(Env(), target) {
        return;
      }
      selectedDate := Some(target);
      if MoveDayStaysAsWritten(CurrentDate(now), target) {
        GenerateDates(now);
      } else {
        MoveTo(target, animated, now);
        if !animated {
          GenerateDates(now);
        }
      }
    }

    method MoveMonth(months: int, animated: bool, now: Instant)
      modifies this
      ensures State() == AfterMoveMonth(Env(), old(State()), months, animated, now)
    {
      var target := AddMonths(CurrentDate(now), months);
      if !CanMove(Env(), target) {
        return;
      }
      if config.autoSelect {
        if SameMonth(target, now) {
          selectedDate := Some(StartOfDay(now));
        } else {
          selectedDate := Some(StartOfMonth(target));
        }
      }
      MoveTo(target, animated, now);
      if !animated {
        GenerateDates(now);
      }
    }

    method SelectDate(date: Instant, now: Instant)
      modifies this
      ensures State() == AfterSelectDateAsWritten(Env(), old(State()), date, now)
    {
      var day := StartOfDay(date);
      if !CanMove(Env(), day) {
        return;
      }
      selectedDate := Some(day);
      var current := CurrentDate(now);
      if YearComponent(current) != YearComponent(day) || MonthComponent(current) != MonthComponent(day) {
        var diff := MonthDiff(current, day);
        WillMoveDate(diff, now);
        MoveDate(diff, now);
      } else {
        GenerateDates(now);
      }
      calls := calls + [DidSelect(day)];
    }

    /** `updateHeight(for:animated:)`; the animation only affects how the change is drawn. */
    method UpdateHeight(date: Instant)
      modifies this
      ensures State() == old(State()).(currentHeight := CalculateHeight(date, config))
    {
      currentHeight := CalculateHeight(date, config);
    }

    /** `generateAllDates()`. */
    method GenerateDates(now: Instant)
      modifies this
      ensures State() == GenerateAllDates(Env(), old(State()), now)
    {
      var dd, selected, env := displayedDates, selectedDate, Env();
      var monthRef := SafeGet(dd, 0).GetOr(now);
      if config.isPagingEnabled {
        datesData := seq(|dd|, i requires 0 <= i < |dd| => PageFor(env, dd[i], selected, now, monthRef));
      } else {
        match SafeGet(displayedDates, 0)
        case None =>
        case Some(d) =>
          datesData := [PageFor(env, d, selected, now, monthRef)];
      }
    }

    /** `handleDateSelection(for:)`. */
    method HandleSelection(nextDate: Instant, now: Instant)
      modifies this
      ensures State() == HandleDateSelection(Env(), old(State()), nextDate, now)
    {
      if !config.autoSelect {
        return;
      }
      if SameMonth(nextDate, now) {
        selectedDate := Some(now);
      } else {
        match config.displayMode
        case Month =>
          selectedDate := Some(StartOfMonth(nextDate));
        case Week =>
          selectedDate := Some(WeekStart(nextDate, firstWeekday));
      }
    }
  }
}
