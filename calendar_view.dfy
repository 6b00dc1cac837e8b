/**
 * The public calendar view (Sources/Public/TSCalendar.swift): how `init`
 * places the initial date inside the bounds before building the view model,
 * and how the two `onChange` handlers keep the caller's `selectedDate`
 * binding and the view model's selection in step without echoing each
 * other's updates.
 */
module CalendarView {
  import opened Wrappers
  import opened Gregorian
  import opened CalendarConfig
  import opened Navigation

  // ---------------------------------------------------------------------
  // Initial date

  /** What `init` asserts: when both bounds are given, the minimum is not after the maximum. */
  predicate BoundsAsserted(minimumDate: Option<Instant>, maximumDate: Option<Instant>)
  {
    minimumDate.Some? && maximumDate.Some? ==> minimumDate.value <= maximumDate.value
  }

  predicate WithinBounds(d: Instant, minimumDate: Option<Instant>, maximumDate: Option<Instant>)
  {
    (minimumDate.Some? ==> minimumDate.value <= d) && (maximumDate.Some? ==> d <= maximumDate.value)
  }

  /**
   * `adjustedInitialDate`: a date before the minimum becomes the minimum;
   * otherwise a date after the maximum becomes the maximum; any other date
   * is kept.
   */
  function AdjustedInitialDate(initialDate: Instant, minimumDate: Option<Instant>, maximumDate: Option<Instant>): (d: Instant)
    ensures minimumDate.Some? && initialDate < minimumDate.value ==> d == minimumDate.value
    ensures !(minimumDate.Some? && initialDate < minimumDate.value) && maximumDate.Some? && initialDate > maximumDate.value
      ==> d == maximumDate.value
    ensures WithinBounds(initialDate, minimumDate, maximumDate) ==> d == initialDate
  {
    if minimumDate.Some? && initialDate < minimumDate.value then minimumDate.value
    else if maximumDate.Some? && initialDate > maximumDate.value then maximumDate.value
    else initialDate
  }

  /**
   * With the asserted bounds, the adjusted date lies within them, and
   * adjusting it again changes nothing.
   */
  lemma AdjustedWithinBounds(initialDate: Instant, minimumDate: Option<Instant>, maximumDate: Option<Instant>)
    requires BoundsAsserted(minimumDate, maximumDate)
    ensures var d := AdjustedInitialDate(initialDate, minimumDate, maximumDate);
      WithinBounds(d, minimumDate, maximumDate)
      && AdjustedInitialDate(d, minimumDate, maximumDate) == d
  {
  }

  /**
   * The assertion is what keeps the adjusted date in range: with the bounds
   * inverted (checked only in debug builds), every initial date ends outside
   * them, at the minimum (after the maximum) or at the maximum (before the
   * minimum).
   */
  lemma InvertedBoundsEscape(initialDate: Instant, minimumDate: Instant, maximumDate: Instant)
    requires maximumDate < minimumDate
    ensures var d := AdjustedInitialDate(initialDate, Some(minimumDate), Some(maximumDate));
      !BoundsAsserted(Some(minimumDate), Some(maximumDate))
      && (d == minimumDate || d == maximumDate)
      && !WithinBounds(d, Some(minimumDate), Some(maximumDate))
  {
  }

  // ---------------------------------------------------------------------
  // Selection sync

  /** `Date.distantPast`, 0001-01-01 00:00:00 UTC, in seconds from 1970-01-01. */
  const DistantPast: Instant := -62135596800

  /**
   * The binding's `onChange`: the view model is asked to select `newDate`
   * only when it is set and not on the same day as the view model's
   * selection (or `distantPast` when there is none).
   */
  predicate ForwardsBinding(newDate: Option<Instant>, viewModelDate: Option<Instant>)
  {
    newDate.Some? && !SameDay(newDate.value, viewModelDate.GetOr(DistantPast))
  }

  /** Two optional selections agree: both absent, or both present on the same day. */
  predicate SameSelection(a: Option<Instant>, b: Option<Instant>)
  {
    (a.None? && b.None?) || (a.Some? && b.Some? && SameDay(a.value, b.value))
  }

  /**
   * The view model's `onChange`: the binding after a change of the view
   * model's selection to `viewModelDate`. Two dates on the same day leave the
   * binding alone; otherwise a differing value is written.
   */
  function SyncedBinding(viewModelDate: Option<Instant>, binding: Option<Instant>): (r: Option<Instant>)
    ensures SameSelection(r, viewModelDate)
    ensures SameSelection(binding, viewModelDate) ==> r == binding
    ensures r == binding || r == viewModelDate
  {
    if viewModelDate.Some? && binding.Some? then
      if !SameDay(viewModelDate.value, binding.value) then viewModelDate else binding
    else if viewModelDate != binding then viewModelDate
    else binding
  }

  /**
   * A selection the view model makes is written to the binding at most once:
   * the binding's own handler then sees the same day and does not call
   * `selectDate` back.
   */
  lemma NoEcho(viewModelDate: Option<Instant>, binding: Option<Instant>)
    ensures !ForwardsBinding(SyncedBinding(viewModelDate, binding), viewModelDate)
  {
  }

  /**
   * A date set through the binding and accepted by `selectDate` comes back
   * from the view model on the same day, so the binding keeps the caller's
   * value: without auto-selection, or when the date is in the displayed
   * date's month (`selectDate` compares months in either display mode).
   */
  lemma BindingRoundTrip(env: NavEnv, s: NavState, date: Instant, now: Instant)
    requires ForwardsBinding(Some(date), s.selectedDate)
    requires CanMove(env, StartOfDay(date))
    requires !env.config.autoSelect || SameMonth(CurrentDisplayedDate(env, s, now), StartOfDay(date))
    ensures var r := AfterSelectDateAsWritten(env, s, date, now);
      r.selectedDate == Some(StartOfDay(date))
      && SyncedBinding(r.selectedDate, Some(date)) == Some(date)
  {
    SelectDateEffect(env, s, date, now);
  }

  /**
   * `TSCalendar`: the view model it owns and the caller's `selectedDate`
   * binding, with the two `onChange` handlers.
   */
  class TSCalendar {
    const viewModel: TSCalendarViewModel
    var selectedDate: Option<Instant>

    /** `init`: the view model starts from the adjusted initial date and the binding's selection. */
    constructor(initialDate: Instant, minimumDate: Option<Instant>, maximumDate: Option<Instant>,
                selectedDate: Option<Instant>, config: Config, firstWeekday: WeekdayNumber, now: Instant)
      ensures fresh(viewModel)
      ensures viewModel.Env() == NavEnv(minimumDate, maximumDate, config, firstWeekday)
      ensures viewModel.State()
           == InitialState(viewModel.Env(), AdjustedInitialDate(initialDate, minimumDate, maximumDate), selectedDate, now)
      ensures this.selectedDate == selectedDate
    {
      var adjustedInitialDate := initialDate;
      if minimumDate.Some? && initialDate < minimumDate.value {
        adjustedInitialDate := minimumDate.value;
      } else if maximumDate.Some? && initialDate > maximumDate.value {
        adjustedInitialDate := maximumDate.value;
      }
      viewModel := new TSCalendarViewModel(adjustedInitialDate, minimumDate, maximumDate, selectedDate, config, firstWeekday, now);
      this.selectedDate := selectedDate;
    }

    /** `onChange(of: selectedDate)`: the caller set the binding to `newDate`. */
    method BindingChanged(newDate: Option<Instant>, now: Instant)
      modifies this, viewModel
      ensures selectedDate == newDate
      ensures viewModel.State()
           == if ForwardsBinding(newDate, old(viewModel.selectedDate))
              then AfterSelectDateAsWritten(viewModel.Env(), old(viewModel.State()), newDate.value, now)
              else old(viewModel.State())
    {
      selectedDate := newDate;
      if newDate.Some? && !SameDay(newDate.value, viewModel.selectedDate.GetOr(DistantPast)) {
        viewModel.SelectDate(newDate.value, now);
      }
    }

    /** `onChange(of: viewModel.selectedDate)`: the view model's selection changed. */
    method ViewModelSelectionChanged()
      modifies this
      ensures selectedDate == SyncedBinding(viewModel.selectedDate, old(selectedDate))
    {
      var newDate := viewModel.selectedDate;
      if newDate.Some? && selectedDate.Some? {
        if !SameDay(newDate.value, selectedDate.value) {
          selectedDate := newDate;
        }
      } else if newDate != selectedDate {
        selectedDate := newDate;
      }
    }
  }
}
