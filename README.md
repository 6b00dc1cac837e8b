# TSCalendar in Dafny

A model of the core of TSCalendar, a SwiftUI calendar component. The model covers:

- the date grids the calendar draws: month pages with a configurable first weekday, fixed six-week or dynamic row counts, and seven-day week rows;
- the navigation view model `TSCalendarViewModel`: its window of three page anchors, its minimum and maximum bounds, `moveDate`, `willMoveDate`, `moveTo`, `moveDay`, `moveMonth` and `selectDate` as the source writes them, the delegate calls they make, and auto-selection; `moveDay` and `selectDate` also in corrected forms, for the two defects under "## Findings";
- the paging gesture coalescer `PagingGestureHandler`, which turns drags and button triggers into one deferred `moveDate(by:)`;
- the event bars of a week row: clipping to the week, greedy packing into rows that do not overlap, and the "+N" overflow count;
- the older `CalendarViewModel`: a sliding three-month window and a 42-cell grid;
- the small helpers: `startOfMonth`/`endOfMonth`, the initial-date clamping and selection sync of `TSCalendar`, the week row's visibility, opacity and colours, the weekday header rotation, the configuration enums, the configuration `id`, and the bounds-checked subscript.

Dates are `Instant`s: whole seconds since 1970-01-01 00:00 in one fixed time zone. A day number is `Instant / 86400`. The Gregorian calendar is written out on day numbers. Month starts are accumulated from January 1970 and checked against an independent closed form. The weekday follows Foundation's numbering, 1 = Sunday. "Today" (`Date()`, `isDateInToday`) is a `now` parameter.

The view models are classes. Each method's `ensures` ties the new state to a pure transition function (`State() == AfterMoveDate(Env(), old(State()), …)`), and the lemmas about those functions state what the source promises. The class methods `MoveDay` and `SelectDate` follow the source as written (`AfterMoveDayAsWritten`, `AfterSelectDateAsWritten`); the corrected transitions `AfterMoveDay` and `AfterSelectDate` are only the corrected halves of the findings, with the property the source evidently intends proved about them. The delegate is a log of calls (`didSelect`, `pageWillChange`, `pageDidChange`).

Modules and files:

| file | module | source |
|---|---|---|
| wrappers.dfy | Wrappers | Swift `Optional` |
| gregorian.dfy | Gregorian | the Foundation `Calendar` operations the sources call |
| calendar_ext.dfy | CalendarExt | Sources/Internal/Extensions/Calendar+Extension.swift |
| collection_ext.dfy | CollectionExt | Sources/Internal/Extensions/Collection+Extension.swift |
| enums.dfy | Enums | Sources/Public/TSCalendarEnums.swift |
| config.dfy | CalendarConfig | Sources/Public/TSCalendarConfig.swift |
| weekday_header.dfy | WeekdayHeader | Sources/Internal/Views/Headers/TSCalendarWeekdayHeaderView.swift |
| grid.dfy | Grid | page generation in Sources/Internal/Views/ViewModels/TSCalendarViewModel.swift |
| navigation.dfy | Navigation | navigation in Sources/Internal/Views/ViewModels/TSCalendarViewModel.swift |
| paging.dfy | Paging | `PagingGestureHandler` in Sources/Internal/Views/Calendar/TSCalendarPagingView.swift |
| event_rows.dfy | EventRows | Sources/Internal/Views/Events/TSCalendarEventsView.swift |
| week_view.dfy | WeekView | Sources/Internal/Views/Week/TSCalendarWeekView.swift |
| calendar_view.dfy | CalendarView | Sources/Public/TSCalendar.swift |
| legacy.dfy | LegacyCalendar | Sources/CalendarViewModel.swift |

The view model reads the auto-selection flag as `config.autoSelect`. The configuration class declares it as `autoSelectToday`. The model names the field `autoSelect`, as the view model uses it.

## Model

| member | source | states |
|---|---|---|
| Gregorian.MonthStartIsFormula | Sources/Internal/Extensions/Calendar+Extension.swift:12-13 | the first day of every month, found by adding month lengths, equals the closed-form days-from-civil count |
| Gregorian.MonthOfIsFormula | Sources/Internal/Extensions/Calendar+Extension.swift:12 | the month found for a day (its year and month components) agrees with the closed-form decomposition into eras, centuries, four-year blocks and years |
| Gregorian.MonthOfIff | Sources/Internal/Extensions/Calendar+Extension.swift:12 | a day lies in a month exactly when it is one of that month's days |
| Gregorian.MonthOfUnique | Sources/Internal/Extensions/Calendar+Extension.swift:12 | the month containing a day is unique |
| Gregorian.FromToCivil | Sources/Internal/Extensions/Calendar+Extension.swift:12-13 | building a date from its own year, month and day gives back the same day |
| Gregorian.ToFromCivil | Sources/Internal/Extensions/Calendar+Extension.swift:12-13 | the components of a date built from valid components are those components |
| Gregorian.ToCivilValid | Sources/Internal/Extensions/Calendar+Extension.swift:12 | every day has valid year, month and day components |
| Gregorian.AddMonthsMonth | Sources/Internal/Extensions/Calendar+Extension.swift:21-26 | adding k months lands in the month k months on, on the same day of the month when it exists, else on the last day, at the same time of day |
| Gregorian.AddDaysDay | Sources/Internal/Views/ViewModels/TSCalendarViewModel.swift:362 | adding k days moves the day number by k and keeps the time of day |
| Gregorian.EpochWeekday | Sources/Internal/Views/ViewModels/TSCalendarViewModel.swift:352 | 1970-01-01 has weekday 5 (Thursday) |
| Gregorian.DaysSinceWeekday | Sources/Internal/Views/ViewModels/TSCalendarViewModel.swift:381-383 | stepping back this many days (0..6) reaches the given weekday |
| Gregorian.SameMonthComponents | Sources/Internal/Views/ViewModels/TSCalendarViewModel.swift:370 | same-month comparison holds exactly when the year and month components agree |
| CalendarExt.StartOfMonth | Sources/Internal/Extensions/Calendar+Extension.swift:11-18 | the result is midnight of day 1 of the date's year and month, no later than the date and in the same month |
| CalendarExt.StartOfMonthOr | Sources/Internal/Extensions/Calendar+Extension.swift:13-16 | when building the month start fails the result is the start of the date's day; otherwise it is the built date |
| CalendarExt.EndOfMonth | Sources/Internal/Extensions/Calendar+Extension.swift:20-31 | the result is midnight of the last day of the date's month, with day component equal to the month's length |
| CalendarExt.EndOfMonthOr | Sources/Internal/Extensions/Calendar+Extension.swift:20-31 | the calendar's answer when it has one; when adding fails, the first day of the month; whether it falls back or the calendar answers correctly, midnight of a day of the date's month no later than its last day |
| CalendarExt.LastDayOfMonth | Sources/Internal/Extensions/Calendar+Extension.swift:21-30 | adding one month and then minus one day to the month start gives `EndOfMonth` |
| CalendarExt.MonthBracket | Sources/Internal/Extensions/Calendar+Extension.swift:11-31 | `startOfMonth` is idempotent, and at day granularity the start of the month is no later than the date, which is no later than the end of the month |
| CollectionExt.SafeGet | Sources/Internal/Extensions/Collection+Extension.swift:11-13 | the result is present exactly when 0 <= i < length, and then it is the element at i; any index is accepted |
| Enums.HeightStyle.Height | Sources/Public/TSCalendarEnums.swift:34-41 | the height is nil exactly for `.flexible`, and `.fixed(h)` gives h |
| Enums.HeightStyle.IsFixed | Sources/Public/TSCalendarEnums.swift:43-52 | `isFixed` is the negation of `isFlexible` |
| Enums.StartWeekDay.RawValue | Sources/Public/TSCalendarEnums.swift:69-77 | raw values lie in 0..6 |
| Enums.AllStartWeekDays | Sources/Public/TSCalendarEnums.swift:69-77 | `allCases` has seven entries, and entry i has raw value i |
| Enums.StartWeekDayFromRaw | Sources/Public/TSCalendarEnums.swift:69-77 | `init?(rawValue:)` succeeds exactly on 0..6, with that raw value |
| Enums.StartWeekDayRawRoundTrip | Sources/Public/TSCalendarEnums.swift:69-77 | every weekday is rebuilt from its raw value |
| Enums.DescriptionsAreRawValues | Sources/Public/TSCalendarEnums.swift:25-27 | the descriptions of display mode, scroll direction, weekday symbol type and event display style are their raw values (also lines 64-66, 100-102, 116-118) |
| CalendarConfig.DefaultConfig | Sources/Public/TSCalendarConfig.swift:39-59 | the defaults: auto-select on, month mode, flexible height, paging on, dynamic month style, vertical scrolling, header shown, week numbers hidden, week starts on Sunday |
| CalendarConfig.JoinInjective | Sources/Public/TSCalendarConfig.swift:35-37 | joining parts without the separator is injective |
| CalendarConfig.IdIdentifiesConfig | Sources/Public/TSCalendarConfig.swift:21-37 | two configurations have the same `id` exactly when they agree on the eight identifiable properties |
| CalendarConfig.IdIgnoresHeightStyle | Sources/Public/TSCalendarConfig.swift:25 | changing only `heightStyle` leaves `id` unchanged |
| CalendarConfig.DefaultId | Sources/Public/TSCalendarConfig.swift:21-59 | the `id` of the default configuration, part by part |
| WeekdayHeader.Rotate | Sources/Internal/Views/Headers/TSCalendarWeekdayHeaderView.swift:29 | the rotation keeps the length, puts `symbols[(k + offset) % n]` at k, is a permutation, and starts with `symbols[offset]` |
| WeekdayHeader.WeekdaySymbols | Sources/Internal/Views/Headers/TSCalendarWeekdayHeaderView.swift:26-30 | the header symbols are the appearance's symbols rotated by the start weekday's raw value, which must not exceed their number |
| WeekdayHeader.SundayKeepsOrder | Sources/Internal/Views/Headers/TSCalendarWeekdayHeaderView.swift:29 | a week starting on Sunday shows the symbols unchanged |
| Grid.LeadingOffset | Sources/Internal/Views/ViewModels/TSCalendarViewModel.swift:353 | the leading offset lies in 0..6 |
| Grid.LeadingOffsetAligns | Sources/Internal/Views/ViewModels/TSCalendarViewModel.swift:352-353 | stepping back by the leading offset reaches the configured first day of the week |
| Grid.WeeksNeeded | Sources/Internal/Views/ViewModels/TSCalendarViewModel.swift:356-357 | six rows for the fixed style; otherwise the least number of rows whose cells hold the offset and the month's days |
| Grid.WeeksCount | Sources/Internal/Views/ViewModels/TSCalendarViewModel.swift:290-298 | 4 to 6 rows; 6 for the fixed style; for the dynamic style the least number of rows holding the leading offset and the month's days |
| Grid.Rows | Sources/Internal/Views/ViewModels/TSCalendarViewModel.swift:374-376 | a list of n cells is cut into ceil(n / 7) rows |
| Grid.RowsOfFullWeeks | Sources/Internal/Views/ViewModels/TSCalendarViewModel.swift:374-376 | a list whose length is a multiple of seven becomes length/7 rows of seven, row r holding cells 7r..7r+6 |
| Grid.MonthCells | Sources/Internal/Views/ViewModels/TSCalendarViewModel.swift:356-372 | seven cells for each of the `WeeksCount` rows |
| Grid.MonthCellDay | Sources/Internal/Views/ViewModels/TSCalendarViewModel.swift:360-362 | flat cell i falls i - offset days after the first of the month |
| Grid.MonthPageShape | Sources/Internal/Views/ViewModels/TSCalendarViewModel.swift:350-377 | a month page has `WeeksCount` rows of exactly seven consecutive days, and its first cell falls on the configured first weekday |
| Grid.FirstCellWeekday | Sources/Internal/Views/ViewModels/TSCalendarViewModel.swift:351-353 | the first cell's weekday is the configured first day of the week |
| Grid.MonthPageMembership | Sources/Internal/Views/ViewModels/TSCalendarViewModel.swift:370 | a cell is marked in the page's month exactly when it is one of the cells offset .. offset + daysInMonth - 1 |
| Grid.MonthPageDays | Sources/Internal/Views/ViewModels/TSCalendarViewModel.swift:360-372 | those cells are days 1, 2, … of the month in order, so every day of the month appears exactly once |
| Grid.MonthPageIncreasing | Sources/Internal/Views/ViewModels/TSCalendarViewModel.swift:360-372 | the days of a month page strictly increase, so no day appears twice |
| Grid.SelectionIsUnique | Sources/Internal/Views/ViewModels/TSCalendarViewModel.swift:368 | in a list of distinct days, at most one cell is selected, and it is the one on the selected day |
| Grid.MonthPageSelection | Sources/Internal/Views/ViewModels/TSCalendarViewModel.swift:368-369 | on a month page a cell is selected exactly when it is on the selected day, and marked today exactly when it is on `now`'s day |
| Grid.WeekStart | Sources/Internal/Views/ViewModels/TSCalendarViewModel.swift:345-348 | the week start is midnight of a day with the calendar's first weekday, at most six days before the date |
| Grid.WeekStartIdempotent | Sources/Internal/Views/ViewModels/TSCalendarViewModel.swift:345-348 | a week start is its own week start |
| Grid.SameWeekStart | Sources/Internal/Views/ViewModels/TSCalendarViewModel.swift:345-348 | two dates have the same week start exactly when the second one's day lies in the seven days from the first one's week start |
| Grid.WeekRow | Sources/Internal/Views/ViewModels/TSCalendarViewModel.swift:379-398 | a week row has seven cells |
| Grid.WeekRowShape | Sources/Internal/Views/ViewModels/TSCalendarViewModel.swift:379-398 | a week row holds seven consecutive days, starts on the configured first weekday, and contains the week start's own day |
| Grid.WeekRowSelection | Sources/Internal/Views/ViewModels/TSCalendarViewModel.swift:392 | on a week row a cell is selected exactly when it is on the selected day |
| Grid.DisplayedDatesFrom | Sources/Internal/Views/ViewModels/TSCalendarViewModel.swift:335-343 | three anchors, one page before, at and after the page of the date |
| Grid.MonthWindow | Sources/Internal/Views/ViewModels/TSCalendarViewModel.swift:335-343 | in month mode the window holds the first days of the month before, the month of and the month after the date |
| Grid.WeekWindow | Sources/Internal/Views/ViewModels/TSCalendarViewModel.swift:335-343 | in week mode the window holds the starts of the week before, the week of and the week after the date |
| Grid.WeekStartShift | Sources/Internal/Views/ViewModels/TSCalendarViewModel.swift:339-341 | moving a date by whole weeks moves its week start by the same weeks |
| Grid.CalculateHeight | Sources/Internal/Views/ViewModels/TSCalendarViewModel.swift:278-288 | none for the flexible style; the row height for a week; rows times the row height for a month |
| Grid.PageHeight | Sources/Internal/Views/ViewModels/TSCalendarViewModel.swift:262-273 | the default height without a fixed style or without a stored page; the fixed height for a stored week page; rows times the fixed height for a stored month page |
| Grid.PageHeightMatchesCalculated | Sources/Internal/Views/ViewModels/TSCalendarViewModel.swift:262-298 | with the fixed style the height read off a stored month page equals the height computed from `calculateWeeksCount` |
| Navigation.CanMove | Sources/Internal/Views/ViewModels/TSCalendarViewModel.swift:80-84 | false exactly when a minimum is set and the date is before it, or a maximum is set and the date is after it |
| Navigation.CanMoveWithinBounds | Sources/Internal/Views/ViewModels/TSCalendarViewModel.swift:80-84 | a date may be moved to exactly when it lies between the bounds that are set |
| Navigation.CurrentDisplayedDate | Sources/Internal/Views/ViewModels/TSCalendarViewModel.swift:37-40 | the anchor at index 1 with paging or 0 without, or `now` when there is none |
| Navigation.GenerateAllDates | Sources/Internal/Views/ViewModels/TSCalendarViewModel.swift:316-333 | only the pages change: one page per anchor with paging; without paging one page, or the old pages when there is no anchor |
| Navigation.GeneratedPage | Sources/Internal/Views/ViewModels/TSCalendarViewModel.swift:316-333 | page i of the regenerated data is the month page or one-row week page of anchor i |
| Navigation.HandleDateSelection | Sources/Internal/Views/ViewModels/TSCalendarViewModel.swift:403-418 | without auto-selection the selection is unchanged; with it, `now` when the new anchor is in the current month, else the first day of its month or week |
| Navigation.MoveDateEffect | Sources/Internal/Views/ViewModels/TSCalendarViewModel.swift:86-98 | out of bounds nothing changes and nothing is reported; otherwise the window is the target's, the pages are regenerated, `pageDidChange` is reported once with the new current anchor, and the selection changes only by auto-selection |
| Navigation.MoveDateLands | Sources/Internal/Views/ViewModels/TSCalendarViewModel.swift:86-98 | after a move in bounds the current anchor is the target's page anchor; in month mode it lies `value` months after the previous current date |
| Navigation.WillMoveDateEffect | Sources/Internal/Views/ViewModels/TSCalendarViewModel.swift:100-110 | the anchors, pages and selection never change; `pageWillChange` is reported only for a target in bounds |
| Navigation.JumpEffect | Sources/Internal/Views/ViewModels/TSCalendarViewModel.swift:86-110 | `willMoveDate` then `moveDate` in bounds reports the change announced and done, and never a selection |
| Navigation.JumpLands | Sources/Internal/Views/ViewModels/TSCalendarViewModel.swift:86-110 | after a jump in bounds the current anchor is the target's page anchor |
| Navigation.JumpWeeks | Sources/Internal/Views/ViewModels/TSCalendarViewModel.swift:86-98 | in week mode a jump in bounds moves the current week by exactly `value` weeks |
| Navigation.MonthDiff | Sources/Internal/Views/ViewModels/TSCalendarViewModel.swift:121-130 | the distance is the difference of the two month indices, zero exactly when the dates share year and month |
| Navigation.WeekDiff | Sources/Internal/Views/ViewModels/TSCalendarViewModel.swift:168-174 | the two week starts lie exactly that many weeks apart, so it is zero exactly when the dates share a week |
| Navigation.ShownElsewhere | Sources/Internal/Views/ViewModels/TSCalendarViewModel.swift:119-151 | the target's page is not shown exactly when the dates are not on the same page |
| Navigation.PageDistance | Sources/Internal/Views/ViewModels/TSCalendarViewModel.swift:128-153 | zero exactly when the two dates are on the same page |
| Navigation.MoveToEffect | Sources/Internal/Views/ViewModels/TSCalendarViewModel.swift:112-166 | out of bounds, or with the page already shown, nothing changes; an animated one-page step only sets `pendingAnimatedMove` to ±1; otherwise it jumps; it never reports a selection |
| Navigation.JumpReachesPage | Sources/Internal/Views/ViewModels/TSCalendarViewModel.swift:133-162 | jumping by the page distance to a date whose anchor is in bounds shows that date's page |
| Navigation.MoveToReaches | Sources/Internal/Views/ViewModels/TSCalendarViewModel.swift:112-166 | unless it only records an animation, `moveTo` shows the day's page whenever the day and its page anchor are within bounds |
| Navigation.MoveToMinimumMonthBlocked | Sources/Internal/Views/ViewModels/TSCalendarViewModel.swift:86-138 | with a minimum after the first of its month, `moveTo` cannot show that month even for a date after the minimum: the anchor is checked, not the date |
| Navigation.MoveDayEffect | Sources/Internal/Views/ViewModels/TSCalendarViewModel.swift:176-201 | of `moveDay` as written: out of bounds nothing changes; it never reports a selection; the moved day stays selected without auto-selection or when it is on the displayed page |
| Navigation.MoveDayFollows | Sources/Internal/Views/ViewModels/TSCalendarViewModel.swift:176-201 | without animation the moved selection's page is shown when the day and its page anchor are within bounds (corrected same-page test) |
| Navigation.MoveDayAsWrittenYearAway | Sources/Internal/Views/ViewModels/TSCalendarViewModel.swift:186-189 | as written, moving the selection to the same date a year on keeps the old page: the month numbers agree |
| Navigation.MoveMonthEffect | Sources/Internal/Views/ViewModels/TSCalendarViewModel.swift:203-230 | out of bounds nothing changes; it never reports a selection; without auto-selection the selection is kept |
| Navigation.MoveMonthReaches | Sources/Internal/Views/ViewModels/TSCalendarViewModel.swift:203-230 | in month mode, without animation and in bounds, the month `months` months on is shown |
| Navigation.SelectDateEffect | Sources/Internal/Views/ViewModels/TSCalendarViewModel.swift:232-256 | of `selectDate` as written: out of bounds nothing changes; otherwise exactly one more `didSelect`, of the day's start, as the last call, and the day stays selected without auto-selection or when it is in the displayed date's month |
| Navigation.SelectDateShowsDay | Sources/Internal/Views/ViewModels/TSCalendarViewModel.swift:232-256 | selecting a day in bounds whose page anchor is in bounds leaves its page displayed (corrected page test) |
| Navigation.SelectDateAcrossPages | Sources/Internal/Views/ViewModels/TSCalendarViewModel.swift:240-255 | of `selectDate` as written: with auto-selection, selecting a day of another month ends with the date `moveDate` auto-selects for the anchor that many pages on, while `didSelect` reported the tapped day |
| Navigation.SelectDateAgreesInMonthMode | Sources/Internal/Views/ViewModels/TSCalendarViewModel.swift:232-256 | in month mode the as-written and the corrected `selectDate` agree |
| Navigation.SelectDateAsWrittenLeavesWeek | Sources/Internal/Views/ViewModels/TSCalendarViewModel.swift:240-250 | in week mode, tapping a day of the shown week that lies in the next month moves the as-written `selectDate` one week on, away from that day; the corrected one keeps it shown |
| Navigation.SelectionsSnoc | Sources/Internal/Views/ViewModels/TSCalendarViewModel.swift:255 | appending a call adds a selection exactly when it is `didSelect` |
| Navigation.WindowMiddle | Sources/Internal/Views/ViewModels/TSCalendarViewModel.swift:335-343 | the middle anchor of the window around a date is that date's page anchor |
| Navigation.InitialStateShape | Sources/Internal/Views/ViewModels/TSCalendarViewModel.swift:53-75 | `init` shows the window of the initial date, sized for it, with nothing reported and no animation pending |
| Navigation.TSCalendarViewModel.constructor | Sources/Internal/Views/ViewModels/TSCalendarViewModel.swift:53-75 | the new state is the initial state for the given bounds, configuration, selection and date |
| Navigation.TSCalendarViewModel.MoveDate | Sources/Internal/Views/ViewModels/TSCalendarViewModel.swift:86-98 | the new state is `AfterMoveDate` of the old one |
| Navigation.TSCalendarViewModel.WillMoveDate | Sources/Internal/Views/ViewModels/TSCalendarViewModel.swift:100-110 | the new state is `AfterWillMoveDate` of the old one |
| Navigation.TSCalendarViewModel.MoveTo | Sources/Internal/Views/ViewModels/TSCalendarViewModel.swift:112-166 | the new state is `AfterMoveTo` of the old one |
| Navigation.TSCalendarViewModel.MoveDay | Sources/Internal/Views/ViewModels/TSCalendarViewModel.swift:176-201 | the new state is `AfterMoveDayAsWritten` of the old one |
| Navigation.TSCalendarViewModel.MoveMonth | Sources/Internal/Views/ViewModels/TSCalendarViewModel.swift:203-230 | the new state is `AfterMoveMonth` of the old one |
| Navigation.TSCalendarViewModel.SelectDate | Sources/Internal/Views/ViewModels/TSCalendarViewModel.swift:232-256 | the new state is `AfterSelectDateAsWritten` of the old one |
| Navigation.TSCalendarViewModel.UpdateHeight | Sources/Internal/Views/ViewModels/TSCalendarViewModel.swift:300-311 | only the height changes, to the height computed for the date |
| Navigation.TSCalendarViewModel.GenerateDates | Sources/Internal/Views/ViewModels/TSCalendarViewModel.swift:316-333 | only the pages change, to `GenerateAllDates` |
| Navigation.TSCalendarViewModel.HandleSelection | Sources/Internal/Views/ViewModels/TSCalendarViewModel.swift:403-418 | only the selection changes, to `HandleDateSelection` |
| Paging.TransitionState.Direction | Sources/Internal/Views/Calendar/TSCalendarPagingView.swift:14-19 | the direction is +1 for a transition to the next page and -1 for one to the previous page |
| Paging.DraggingOnlyMovesOffset | Sources/Internal/Views/Calendar/TSCalendarPagingView.swift:50-53 | while dragging only the offset moves; the count, the transition and the calls stay |
| Paging.ReleaseEffect | Sources/Internal/Views/Calendar/TSCalendarPagingView.swift:32-76 | past +50 it starts `.previous`, counts -1 and announces -1; past -50 it starts `.next`, counts +1 and announces +1; otherwise it clears the transition, resets the offset and keeps the count |
| Paging.OffsetChangeEffect | Sources/Internal/Views/Calendar/TSCalendarPagingView.swift:80-108 | ignored without a transition or during a drag; otherwise exactly one flush is pending |
| Paging.WorkItemEffect | Sources/Internal/Views/Calendar/TSCalendarPagingView.swift:90-105 | a flush calls `moveDate` once with the whole count exactly when it is non-zero, then resets the count, the transition and the offset |
| Paging.NoFlushAfterFlush | Sources/Internal/Views/Calendar/TSCalendarPagingView.swift:102-104 | the offset reset of a flush cannot schedule another flush |
| Paging.ExternalTriggerEffect | Sources/Internal/Views/Calendar/TSCalendarPagingView.swift:112-141 | the pending animated move is always cleared; during a transition nothing else happens; direction 0 does nothing more; otherwise it counts and announces ±1 |
| Paging.StepKeepsBalance | Sources/Internal/Views/Calendar/TSCalendarPagingView.swift:59-135 | every event keeps the announced steps equal to the committed plus the pending ones |
| Paging.RunKeepsBalance | Sources/Internal/Views/Calendar/TSCalendarPagingView.swift:37-38 | from a new handler every sequence of events stays balanced: no step is lost or committed twice |
| Paging.SettledAfterFlush | Sources/Internal/Views/Calendar/TSCalendarPagingView.swift:93-100 | after a flush every announced step has been committed |
| Paging.RunAppends | Sources/Internal/Views/Calendar/TSCalendarPagingView.swift:60-136 | the handler only appends calls to the view model |
| Paging.NetStepSinceFlush | Sources/Internal/Views/Calendar/TSCalendarPagingView.swift:59-135 | with nothing pending, the count a flush commits after events without a flush is the net of the steps announced in them |
| Paging.OppositeSwipesCancel | Sources/Internal/Views/Calendar/TSCalendarPagingView.swift:97-100 | a swipe forward and one back before the flush commit no move |
| Paging.TriggerDuringTransitionIgnored | Sources/Internal/Views/Calendar/TSCalendarPagingView.swift:120-123 | a trigger during a transition changes neither the count nor the announced steps |
| Paging.CancelledSwipesKeepPage | Sources/Internal/Views/Calendar/TSCalendarPagingView.swift:97-100 | cancelled swipes only announce: the view model's pages and selection are as before |
| Paging.PagingGestureHandler.constructor | Sources/Internal/Views/Calendar/TSCalendarPagingView.swift:22-42 | a new handler is at rest with nothing pending |
| Paging.PagingGestureHandler.HandleDragGesture | Sources/Internal/Views/Calendar/TSCalendarPagingView.swift:44-77 | the new state is `AfterDragGesture` of the old one |
| Paging.PagingGestureHandler.HandleOffsetChange | Sources/Internal/Views/Calendar/TSCalendarPagingView.swift:79-109 | the new state is `AfterOffsetChange` of the old one |
| Paging.PagingGestureHandler.RunPendingWork | Sources/Internal/Views/Calendar/TSCalendarPagingView.swift:90-105 | the new state is `AfterWorkItem` of the old one |
| Paging.PagingGestureHandler.HandleExternalTrigger | Sources/Internal/Views/Calendar/TSCalendarPagingView.swift:112-141 | the new state is `AfterExternalTrigger` of the old one |
| EventRows.FirstSameDay | Sources/Internal/Views/Events/TSCalendarEventsView.swift:99-104 | the first cell on the same day as the date, or none when no cell is |
| EventRows.ProcessEvent | Sources/Internal/Views/Events/TSCalendarEventsView.swift:74-110 | a kept event carries the event, row 0, and first and last columns inside the row |
| EventRows.ProcessEventColumns | Sources/Internal/Views/Events/TSCalendarEventsView.swift:85-109 | on a week of consecutive days an event is kept exactly when its days meet the week's, and its columns are the clipped days' distances from the first day |
| EventRows.FirstSameDayConsecutive | Sources/Internal/Views/Events/TSCalendarEventsView.swift:99-104 | in a week of consecutive days a day in range is found at its distance from the first |
| EventRows.AdjustedEvents | Sources/Internal/Views/Events/TSCalendarEventsView.swift:74-110 | every kept event is an input event as `ProcessEvent` clips it, every input event it keeps is there, and there are no more than the input events |
| EventRows.KeptPositionsExact | Sources/Internal/Views/Events/TSCalendarEventsView.swift:74-110 | the positions `compactMap` keeps are exactly the inputs whose clipping gives a value, each once and in increasing order |
| EventRows.AdjustedAtKeptPositions | Sources/Internal/Views/Events/TSCalendarEventsView.swift:74-110 | `compactMap` keeps order and multiplicity: one adjusted event per kept input event, the k-th being the clipping of the k-th kept input, and every kept input listed |
| EventRows.SortByStart | Sources/Internal/Views/Events/TSCalendarEventsView.swift:117 | the result is sorted by first column and is a permutation of the input |
| EventRows.Pass | Sources/Internal/Views/Events/TSCalendarEventsView.swift:120-130 | the row and the rest of one filter pass together are as long as its input |
| EventRows.PassSplits | Sources/Internal/Views/Events/TSCalendarEventsView.swift:123-130 | the row and the rest together are a permutation of the input |
| EventRows.PassChained | Sources/Internal/Views/Events/TSCalendarEventsView.swift:124-127 | every bar of the row starts after the previous one ends |
| EventRows.PassPlacesFirst | Sources/Internal/Views/Events/TSCalendarEventsView.swift:121-127 | the first remaining event always joins the row, so each pass makes progress |
| EventRows.Pack | Sources/Internal/Views/Events/TSCalendarEventsView.swift:119-133 | every event lands in exactly one row, no row is empty, there are at most as many rows as events, and bars in a row do not overlap |
| EventRows.NextRow | Sources/Internal/Views/Events/TSCalendarEventsView.swift:120-130 | the loop builds the same row, rest and last end column as `Pass` |
| EventRows.LabelRows | Sources/Internal/Views/Events/TSCalendarEventsView.swift:136-140 | every event of row r gets `offsetY` r, nothing else changes |
| EventRows.OrganizeEvents | Sources/Internal/Views/Events/TSCalendarEventsView.swift:115-143 | the loops produce the sorted, packed and labelled rows |
| EventRows.ProcessEvents | Sources/Internal/Views/Events/TSCalendarEventsView.swift:70-113 | the rows of the clipped events |
| EventRows.OrganizedRows | Sources/Internal/Views/Events/TSCalendarEventsView.swift:115-143 | the rows hold the input events, each once, with the row number as `offsetY`; at most as many rows as events, none empty, bars in a row do not overlap |
| EventRows.OrganizedRowsFewest | Sources/Internal/Views/Events/TSCalendarEventsView.swift:115-143 | the greedy packing uses as few rows as possible: no column is covered by more events than there are rows, and some column by exactly as many |
| EventRows.LabelKeepsColumns | Sources/Internal/Views/Events/TSCalendarEventsView.swift:136-140 | labelling keeps the columns, so the bars still do not overlap |
| EventRows.VisibleHiddenSplit | Sources/Internal/Views/Events/TSCalendarEventsView.swift:162-164 | every covering event is visible or hidden, never both |
| EventRows.RemainingCount | Sources/Internal/Views/Events/TSCalendarEventsView.swift:154-166 | the count is never negative |
| EventRows.RemainingIsHidden | Sources/Internal/Views/Events/TSCalendarEventsView.swift:154-166 | the count is the number of events covering the day in rows at or after `maxRows`, so "+N" shows exactly when one exists |
| EventRows.DayIndexOfConsecutive | Sources/Internal/Views/Events/TSCalendarEventsView.swift:156-158 | in a week of distinct days the column of cell i is i |
| WeekView.InMonthOnly | Sources/Internal/Views/Week/TSCalendarWeekView.swift:82-84 | a cell is kept exactly when it is in the page's month |
| WeekView.InMonthOnlyKeepsOrder | Sources/Internal/Views/Week/TSCalendarWeekView.swift:82-84 | the in-month cells keep their order in the row |
| WeekView.VisibleDates | Sources/Internal/Views/Week/TSCalendarWeekView.swift:78-87 | a cell is visible exactly when its display mode and month style show it |
| WeekView.VisibleDatesCases | Sources/Internal/Views/Week/TSCalendarWeekView.swift:78-87 | week mode or fixed style shows the whole row; dynamic month style shows exactly the in-month cells, in order |
| WeekView.FirstIndexOfDate | Sources/Internal/Views/Week/TSCalendarWeekView.swift:92-93 | the first position holding the date, or none |
| WeekView.VisibleStartIndex | Sources/Internal/Views/Week/TSCalendarWeekView.swift:89-95 | 0 unless the style is dynamic, 0 when nothing is visible, otherwise a position in the row |
| WeekView.StartIndexIsFirstInMonth | Sources/Internal/Views/Week/TSCalendarWeekView.swift:89-95 | on a dynamic month row with increasing dates the start is the first in-month cell: every cell before it is outside the month |
| WeekView.WeekModeStartsAtZero | Sources/Internal/Views/Week/TSCalendarWeekView.swift:89-95 | in week mode the bars start at column 0 |
| WeekView.DateOpacity | Sources/Internal/Views/Week/TSCalendarWeekView.swift:16-23 | 1 in week mode or in the month; 0 out of the month with the dynamic style; the other-month opacity otherwise |
| WeekView.TransparentIffHidden | Sources/Internal/Views/Week/TSCalendarWeekView.swift:16-23 | with a visible other-month opacity, a cell of the row is transparent exactly when it is not among the visible dates |
| WeekView.ForegroundColor | Sources/Internal/Views/Week/TSCalendarWeekView.swift:197-205 | the Sunday colour exactly for weekday 1, the Saturday colour exactly for weekday 7, the weekday colour otherwise |
| WeekView.WeekRowColors | Sources/Internal/Views/Week/TSCalendarWeekView.swift:197-205 | on a week row exactly one cell has the Sunday colour and one the Saturday colour, at the columns fixed by the first weekday |
| WeekView.BackgroundColor | Sources/Internal/Views/Week/TSCalendarWeekView.swift:207-212 | the today colour exactly when the cell is today, clear otherwise |
| WeekView.TodayHighlight | Sources/Internal/Views/Week/TSCalendarWeekView.swift:207-212 | on a generated cell the today colour marks exactly the cell on `now`'s day |
| WeekView.EventCount | Sources/Internal/Views/Week/TSCalendarWeekView.swift:192-195 | the data source's number of events for the date, 0 without a data source |
| WeekView.IndicatorFor | Sources/Internal/Views/Week/TSCalendarWeekView.swift:166-190 | blank exactly when the count is 0; with events, a dot in the dots style, "+N" with N the count in the count style, nothing drawn in the other styles |
| WeekView.IndicatorMatchesEvents | Sources/Internal/Views/Week/TSCalendarWeekView.swift:166-195 | blank space exactly when the data source lists no events for the day (always without a data source); otherwise a dot in the dots style, "+N" with N the number of listed events in the count style, nothing drawn in the other styles |
| CalendarView.AdjustedInitialDate | Sources/Public/TSCalendar.swift:37-42 | before the minimum gives the minimum; otherwise after the maximum gives the maximum; a date within the bounds is kept |
| CalendarView.AdjustedWithinBounds | Sources/Public/TSCalendar.swift:29-42 | with the asserted bounds the adjusted date lies within them and adjusting again changes nothing |
| CalendarView.InvertedBoundsEscape | Sources/Public/TSCalendar.swift:29-42 | with inverted bounds, which only debug builds assert against, every adjusted date is the minimum or the maximum and lies outside the bounds |
| CalendarView.SyncedBinding | Sources/Public/TSCalendar.swift:75-85 | the binding ends on the view model's selection (same day, or both absent), and is left alone when it already agrees |
| CalendarView.NoEcho | Sources/Public/TSCalendar.swift:67-85 | a value written by the view model's handler never makes the binding's handler call `selectDate` back |
| CalendarView.BindingRoundTrip | Sources/Public/TSCalendar.swift:67-85 | a date set through the binding and accepted by `selectDate` as written is selected, and the binding keeps the caller's value, without auto-selection or when the date is in the displayed date's month |
| CalendarView.TSCalendar.constructor | Sources/Public/TSCalendar.swift:17-58 | the view model starts from the clamped initial date with the given bounds, configuration and selection |
| CalendarView.TSCalendar.BindingChanged | Sources/Public/TSCalendar.swift:67-74 | the view model runs `selectDate` as written exactly when the new value is set and not on the view model's selected day |
| CalendarView.TSCalendar.ViewModelSelectionChanged | Sources/Public/TSCalendar.swift:75-85 | the binding becomes `SyncedBinding` of the view model's selection |
| LegacyCalendar.MonthAtIndex | Sources/CalendarViewModel.swift:33-37 | the first day of a month lies in that month |
| LegacyCalendar.StartOfMonthIsMonthAt | Sources/CalendarViewModel.swift:33 | `startOfMonth` of a date is the first day of its month |
| LegacyCalendar.AddMonthsAt | Sources/CalendarViewModel.swift:34-36 | adding k months to a month's first day gives the first day of the month k on |
| LegacyCalendar.Window | Sources/CalendarViewModel.swift:33-37 | three months whose middle one is the first day of the month |
| LegacyCalendar.Shifted | Sources/CalendarViewModel.swift:45-58 | the shifted window still holds three months |
| LegacyCalendar.ShiftSlides | Sources/CalendarViewModel.swift:45-58 | the window stays three consecutive months and moves exactly one month: forward for a positive value, back otherwise, however large the value |
| LegacyCalendar.LeadingDays | Sources/CalendarViewModel.swift:78-82 | 0..6 days before day 1 |
| LegacyCalendar.PreviousMonthCell | Sources/CalendarViewModel.swift:81-92 | a cell before the month is the right day of the previous month, unflagged |
| LegacyCalendar.CurrentMonthCell | Sources/CalendarViewModel.swift:94-101 | a cell of the month is its day, flagged against the selection and today |
| LegacyCalendar.NextMonthCell | Sources/CalendarViewModel.swift:103-113 | a cell after the month is the right day of the next month, unflagged |
| LegacyCalendar.CellsSoFarSnoc | Sources/CalendarViewModel.swift:81-113 | appending the next grid cell keeps a prefix of the grid |
| LegacyCalendar.LegacyMonthCells | Sources/CalendarViewModel.swift:74-119 | the grid always holds 42 cells |
| LegacyCalendar.LegacyGridShape | Sources/CalendarViewModel.swift:74-119 | six rows of seven consecutive days at midnight, starting on a Sunday, with the first of the month in column `LeadingDays` |
| LegacyCalendar.LegacyGridLeading | Sources/CalendarViewModel.swift:81-92 | the cells before the month are the last `LeadingDays` days of the previous month |
| LegacyCalendar.LegacyGridMonthDays | Sources/CalendarViewModel.swift:94-101 | the next cells are days 1 .. daysInMonth of the month, in order, marked in the month |
| LegacyCalendar.LegacyGridTrailing | Sources/CalendarViewModel.swift:103-113 | the remaining cells are the first days of the next month |
| LegacyCalendar.LegacyFlagsOnlyInMonth | Sources/CalendarViewModel.swift:88-109 | only days of the month can be selected or today, and on them the flags follow the selection and `now` by day |
| LegacyCalendar.MonthsData | Sources/CalendarViewModel.swift:70-72 | one grid per displayed month |
| LegacyCalendar.CalendarViewModel.constructor | Sources/CalendarViewModel.swift:22-40 | the window of the initial date's month and its neighbours with their grids, no selection, no calls, and the bounds stored |
| LegacyCalendar.CalendarViewModel.MoveMonth | Sources/CalendarViewModel.swift:42-62 | reports the old centre, slides the window one month whatever the bounds, regenerates the grids, reports the new centre |
| LegacyCalendar.CalendarViewModel.SelectDate | Sources/CalendarViewModel.swift:64-68 | always selects the date, regenerates the grids and reports `didSelect`, whatever the bounds |
| LegacyCalendar.CalendarViewModel.GenerateAllMonthsDays | Sources/CalendarViewModel.swift:70-72 | the grids become `MonthsData` of the window |
| LegacyCalendar.CalendarViewModel.GenerateDaysForMonth | Sources/CalendarViewModel.swift:74-119 | the three loops build the grid of the month, cut into rows |

## Left out

- Views and layout: the SwiftUI bodies, `GeometryReader`, frames, offsets, fonts and the paging container views. Offsets, translations and heights are `real`. Colours and opacities are tags and reals.
- `TSCalendarUIView` and the UIKit hosting are not part of this model.
- Timing: `DispatchQueue.main.asyncAfter`, the 0.3 s delays and `withAnimation`. The deferred flush is an explicit event (`RunPendingWork`); cancelling the old work item is modelled by holding at most one pending flush.
- Concurrency and `@MainActor`: every event runs to completion in order.
- Time zones, daylight saving, locales and formatted titles: one fixed zone whose days are 86400 seconds long. `weekNumberOfYear` (ISO week numbers for display) is left out.
- Week identity: `yearForWeekOfYear` and `weekOfYear` are compared as week starts for the calendar's first weekday, a parameter of the model.
- Foundation failures: `date(byAdding:)`, `date(from:)` and `range(of:in:for:)` never fail for the Gregorian calendar, so the `compactMap` drops, the `?? 30` day count and the `?? date` fallbacks are unreachable and not modelled. The two fallbacks of `startOfMonth`/`endOfMonth` are modelled, with the calendar's answer passed in as an optional.
- The delegate is a log of calls and is always present. The data source is a function from day to events.
- `Date()` and `isDateInToday` are the `now` parameter.
- The `assert` in `TSCalendar.init` is checked only in debug builds, so the constructor accepts inverted bounds; `InvertedBoundsEscape` states what then happens.
- `maxRows` of the event view, computed from CGFloat heights, is an input.
- The event view's `sorted` is not stable in Swift. `SortByStart` is a stable insertion sort; events with the same first column may come out in another order in the source.
- EventRows.OrganizedRowsFewest: holds for events whose last column is not before their first, as `ProcessEventColumns` gives for events that end no earlier than they start; an event that ends before it starts covers no column but still takes a place in a row.
- Paging: a button trigger that arrives while a transition runs is dropped (`TriggerDuringTransitionIgnored`), as the code does; it is not queued behind the running transition.
- EventRows.OrganizeEvents: requires every event to have a start column, which `processEvents` guarantees (`ProcessEvent` only keeps events found in the row).
- The appearance tables (`TSCalendarAppearance` and the style structs) and the example apps are not part of this model.
- `currentCalendarData`, `currentWeekData` and the Combine subscription that regenerates pages when the configuration changes are not modelled.
- Legacy `CalendarViewModel`: its `if let` fallbacks never fire for the Gregorian calendar; `date(bySetting: .day)` from a month's first day is modelled as adding days.

## Findings

| source | as written | input that shows it | evidently intended | confidence | as-written member | corrected member |
|---|---|---|---|---|---|---|
| Sources/Internal/Views/ViewModels/TSCalendarViewModel.swift:186-189 | `moveDay` decides the moved selection is still on the displayed page by comparing month numbers only, ignoring the year and, in week mode, the week | month mode, displayed January 2024, selected 2024-01-15, `moveDay(by: 366)`: the selection becomes 2025-01-15 and the page stays on January 2024 | the page follows the selection whenever it leaves the displayed month or week, as `moveTo` decides | not executed | Navigation.MoveDayAsWrittenYearAway | Navigation.MoveDayFollows |
| Sources/Internal/Views/ViewModels/TSCalendarViewModel.swift:240-250 | `selectDate` tests the page and computes the distance in months even in week mode, and `moveDate` then moves that many weeks | week mode with Sunday start, displayed week 2025-01-26 .. 2025-02-01, tapping 2025-02-01: the month difference is 1, so the week 2025-02-02 .. 02-08 is shown and the tapped day leaves the screen | in week mode the week of the selected day stays shown | not executed | Navigation.SelectDateAsWrittenLeavesWeek | Navigation.SelectDateShowsDay |
