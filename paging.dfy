/**
 * The paging gesture coalescer `PagingGestureHandler`
 * (Sources/Internal/Views/Calendar/TSCalendarPagingView.swift).
 *
 * Drags released past the threshold and external next/previous triggers
 * each announce a one-page step to the view model and add it to a pending
 * count; a deferred work item later commits the net count with one
 * `moveDate(by:)`. The work item is an explicit `WorkItemFired` event and a
 * `workPending` flag instead of a timer. Offsets are `real` (CGFloat). The
 * handler's calls into the view model are kept, in order, in `requests`;
 * `Apply` gives their effect on the view model's state.
 */
module Paging {
  import opened Wrappers
  import opened Gregorian
  import opened Navigation

  /** The drag distance, in points, a release must exceed to turn the page. */
  const DragThreshold: real := 50.0

  datatype TransitionState = Next | Previous {
    function Direction(): (d: int)
      ensures d == 1 || d == -1
      ensures d == 1 <==> this.Next?
    {
      match this
      case Next => 1
      case Previous => -1
    }
  }

  datatype Axis = Horizontal | Vertical

  /** The view-model calls the handler makes. */
  datatype Request =
    | WillMoveDate(pages: int)
    | MoveDate(pages: int)
    | ClearPendingAnimatedMove

  /** The handler's stored properties, whether a work item is scheduled, and the calls made so far. */
  datatype PagingState = PagingState(
    offset: real,
    isDragging: bool,
    transitionState: Option<TransitionState>,
    pendingMoveCount: int,
    workPending: bool,
    requests: seq<Request>)

  /** A new handler: at rest, nothing pending, nothing requested. */
  function InitialPaging(): PagingState
  {
    PagingState(0.0, false, None, 0, false, [])
  }

  /** The component of a drag's translation along the paging axis. */
  function Translation(axis: Axis, width: real, height: real): real
  {
    match axis
    case Horizontal => width
    case Vertical => height
  }

  /**
   * `handleDragGesture`: while dragging the page follows the finger; on
   * release past the threshold it starts a transition to the previous
   * (dragged forward) or next (dragged back) page, counts and announces the
   * step; a short release springs back.
   */
  function AfterDragGesture(h: PagingState, axis: Axis, width: real, height: real,
                            pageSize: real, nextPageSize: Option<real>): PagingState
  {
    var translation := Translation(axis, width, height);
    if h.isDragging then h.(offset := translation)
    else if translation > DragThreshold then
      h.(transitionState := Some(Previous), pendingMoveCount := h.pendingMoveCount - 1,
         requests := h.requests + [WillMoveDate(-1)], offset := pageSize)
    else if translation < -DragThreshold then
      h.(transitionState := Some(Next), pendingMoveCount := h.pendingMoveCount + 1,
         requests := h.requests + [WillMoveDate(1)], offset := -nextPageSize.GetOr(pageSize))
    else h.(transitionState := None, offset := 0.0)
  }

  /** `handleOffsetChange`: during a transition and not while dragging, (re)schedule the single flush. */
  function AfterOffsetChange(h: PagingState): PagingState
  {
    if h.transitionState.None? || h.isDragging then h
    else h.(workPending := true)
  }

  /**
   * The scheduled work item: take the pending count, reset it, commit it with
   * one `moveDate(by:)` unless it is zero, then end the transition and
   * return to rest. Without a scheduled item nothing runs.
   */
  function AfterWorkItem(h: PagingState): PagingState
  {
    if !h.workPending then h
    else
      var moveBy := h.pendingMoveCount;
      var requests := if moveBy != 0 then h.requests + [MoveDate(moveBy)] else h.requests;
      h.(pendingMoveCount := 0, requests := requests, transitionState := None, offset := 0.0, workPending := false)
  }

  /**
   * `handleExternalTrigger`: always clear the view model's pending animated
   * move; outside a transition, start one towards the sign of `direction`.
   */
  function AfterExternalTrigger(h: PagingState, direction: int, pageSize: real, nextPageSize: Option<real>): PagingState
  {
    var h1 := h.(requests := h.requests + [ClearPendingAnimatedMove]);
    if h1.transitionState.Some? then h1
    else if direction > 0 then
      h1.(transitionState := Some(Next), pendingMoveCount := h1.pendingMoveCount + 1,
          requests := h1.requests + [WillMoveDate(1)], offset := -nextPageSize.GetOr(pageSize))
    else if direction < 0 then
      h1.(transitionState := Some(Previous), pendingMoveCount := h1.pendingMoveCount - 1,
          requests := h1.requests + [WillMoveDate(-1)], offset := pageSize)
    else h1
  }

  // ---------------------------------------------------------------------
  // Event traces

  /** What the paging views feed the handler. */
  datatype Event =
    | DragChanged(axis: Axis, width: real, height: real, pageSize: real)
    | DragEnded(axis: Axis, width: real, height: real, pageSize: real)
    | OffsetChanged
    | WorkItemFired
    | ExternalTrigger(direction: int, pageSize: real)

  /** One event: the views set `isDragging` before handing a drag update or its end to the handler. */
  function Step(h: PagingState, e: Event): PagingState
  {
    match e
    case DragChanged(axis, w, ht, size) => AfterDragGesture(h.(isDragging := true), axis, w, ht, size, None)
    case DragEnded(axis, w, ht, size) => AfterDragGesture(h.(isDragging := false), axis, w, ht, size, None)
    case OffsetChanged => AfterOffsetChange(h)
    case WorkItemFired => AfterWorkItem(h)
    case ExternalTrigger(direction, size) => AfterExternalTrigger(h, direction, size, None)
  }

  /** The events of a trace, in order. */
  function Run(h: PagingState, events: seq<Event>): PagingState
  {
    if |events| == 0 then h else Step(Run(h, events[..|events| - 1]), events[|events| - 1])
  }

  /** The pages announced with `willMoveDate(by:)`, with sign. */
  function Announced(requests: seq<Request>): int
  {
    if |requests| == 0 then 0
    else Announced(requests[..|requests| - 1]) + (if requests[|requests| - 1].WillMoveDate? then requests[|requests| - 1].pages else 0)
  }

  /** The pages committed with `moveDate(by:)`, with sign. */
  function Committed(requests: seq<Request>): int
  {
    if |requests| == 0 then 0
    else Committed(requests[..|requests| - 1]) + (if requests[|requests| - 1].MoveDate? then requests[|requests| - 1].pages else 0)
  }

  /** Every announced step is either committed or still counted as pending. */
  predicate Balanced(h: PagingState)
  {
    Committed(h.requests) + h.pendingMoveCount == Announced(h.requests)
  }

  lemma {:induction false} SumsAppend(a: seq<Request>, b: seq<Request>)
    ensures Announced(a + b) == Announced(a) + Announced(b)
    ensures Committed(a + b) == Committed(a) + Committed(b)
    decreases |b|
  {
    if |b| == 0 {
      assert a + b == a;
    } else {
      var b' := b[..|b| - 1];
      assert (a + b)[..|a + b| - 1] == a + b';
      SumsAppend(a, b');
    }
  }

  /** The sums of a single call. */
  lemma SumsOne(x: Request)
    ensures Announced([x]) == (if x.WillMoveDate? then x.pages else 0)
    ensures Committed([x]) == (if x.MoveDate? then x.pages else 0)
  {
    assert [x][..0] == [];
  }

  /** The calls one event appends, and how they move the pending count: by the steps announced, less those committed. */
  lemma StepDelta(h: PagingState, e: Event)
    ensures var r := Step(h, e);
      && h.requests <= r.requests
      && var added := r.requests[|h.requests|..];
         && r.pendingMoveCount + Committed(added) == h.pendingMoveCount + Announced(added)
         && (!e.WorkItemFired? ==> Committed(added) == 0)
  {
    var r := Step(h, e);
    match e
    case DragChanged(axis, w, ht, size) =>
      DragDelta(h.(isDragging := true), axis, w, ht, size);
    case DragEnded(axis, w, ht, size) =>
      DragDelta(h.(isDragging := false), axis, w, ht, size);
    case OffsetChanged =>
      assert r.requests[|h.requests|..] == [];
    case WorkItemFired =>
      WorkItemDelta(h);
    case ExternalTrigger(direction, size) =>
      TriggerDelta(h, direction, size);
  }

  lemma DragDelta(h: PagingState, axis: Axis, width: real, height: real, size: real)
    ensures var r := AfterDragGesture(h, axis, width, height, size, None);
      && h.requests <= r.requests
      && var added := r.requests[|h.requests|..];
         && r.pendingMoveCount == h.pendingMoveCount + Announced(added)
         && Committed(added) == 0
  {
    var r := AfterDragGesture(h, axis, width, height, size, None);
    if r.requests == h.requests {
      assert r.requests[|h.requests|..] == [];
    } else {
      var x := r.requests[|h.requests|];
      assert r.requests[|h.requests|..] == [x];
      SumsOne(x);
    }
  }

  lemma WorkItemDelta(h: PagingState)
    ensures var r := AfterWorkItem(h);
      && h.requests <= r.requests
      && var added := r.requests[|h.requests|..];
         r.pendingMoveCount + Committed(added) == h.pendingMoveCount + Announced(added)
  {
    var r := AfterWorkItem(h);
    if r.requests == h.requests {
      assert r.requests[|h.requests|..] == [];
    } else {
      assert r.requests[|h.requests|..] == [MoveDate(h.pendingMoveCount)];
      SumsOne(MoveDate(h.pendingMoveCount));
    }
  }

  lemma TriggerDelta(h: PagingState, direction: int, size: real)
    ensures var r := AfterExternalTrigger(h, direction, size, None);
      && h.requests <= r.requests
      && var added := r.requests[|h.requests|..];
         && r.pendingMoveCount == h.pendingMoveCount + Announced(added)
         && Committed(added) == 0
  {
    var r := AfterExternalTrigger(h, direction, size, None);
    var added := r.requests[|h.requests|..];
    SumsOne(ClearPendingAnimatedMove);
    if |r.requests| == |h.requests| + 2 {
      var x := r.requests[|h.requests| + 1];
      assert added == [ClearPendingAnimatedMove] + [x];
      SumsOne(x);
      SumsAppend([ClearPendingAnimatedMove], [x]);
    } else {
      assert added == [ClearPendingAnimatedMove];
    }
  }

  // ---------------------------------------------------------------------
  // Properties

  /** While dragging, a drag update only moves the page: the count, the transition and the calls stay. */
  lemma DraggingOnlyMovesOffset(h: PagingState, axis: Axis, width: real, height: real, pageSize: real, nextPageSize: Option<real>)
    requires h.isDragging
    ensures AfterDragGesture(h, axis, width, height, pageSize, nextPageSize) == h.(offset := Translation(axis, width, height))
  {
  }

  /**
   * A release past the threshold forward starts `.previous` and counts -1,
   * past it backward starts `.next` and counts +1, each announcing the step;
   * a release within it ends any transition at offset 0 and counts nothing.
   */
  lemma ReleaseEffect(h: PagingState, axis: Axis, width: real, height: real, pageSize: real, nextPageSize: Option<real>)
    requires !h.isDragging
    ensures var r := AfterDragGesture(h, axis, width, height, pageSize, nextPageSize);
      var t := Translation(axis, width, height);
      && (t > DragThreshold ==>
            r.transitionState == Some(Previous) && r.pendingMoveCount == h.pendingMoveCount - 1
            && r.requests == h.requests + [WillMoveDate(-1)])
      && (t < -DragThreshold ==>
            r.transitionState == Some(Next) && r.pendingMoveCount == h.pendingMoveCount + 1
            && r.requests == h.requests + [WillMoveDate(1)])
      && (-DragThreshold <= t <= DragThreshold ==> r == h.(transitionState := None, offset := 0.0))
      && r.workPending == h.workPending
  {
  }

  /** Offset changes outside a transition or during a drag are ignored; otherwise exactly one flush is pending. */
  lemma OffsetChangeEffect(h: PagingState)
    ensures var r := AfterOffsetChange(h);
      && (h.transitionState.None? || h.isDragging ==> r == h)
      && (h.transitionState.Some? && !h.isDragging ==> r == h.(workPending := true))
  {
  }

  /**
   * A flush commits the whole pending count with one `moveDate` exactly when
   * it is non-zero, and leaves the handler at rest with nothing pending.
   */
  lemma WorkItemEffect(h: PagingState)
    requires h.workPending
    ensures var r := AfterWorkItem(h);
      && r.pendingMoveCount == 0 && r.transitionState.None? && r.offset == 0.0 && !r.workPending
      && r.requests == h.requests + (if h.pendingMoveCount != 0 then [MoveDate(h.pendingMoveCount)] else [])
      && Committed(r.requests) == Committed(h.requests) + h.pendingMoveCount
  {
    SumsAppend(h.requests, if h.pendingMoveCount != 0 then [MoveDate(h.pendingMoveCount)] else []);
  }

  /** After the flush has ended the transition, the offset reset it makes cannot schedule another. */
  lemma NoFlushAfterFlush(h: PagingState)
    ensures AfterOffsetChange(AfterWorkItem(h)) == AfterWorkItem(h) || h == AfterWorkItem(h)
  {
  }

  /**
   * An external trigger always clears the pending animated move first; it is
   * ignored during a transition, and direction 0 does nothing more.
   */
  lemma ExternalTriggerEffect(h: PagingState, direction: int, pageSize: real, nextPageSize: Option<real>)
    ensures var r := AfterExternalTrigger(h, direction, pageSize, nextPageSize);
      && |r.requests| > |h.requests| && r.requests[|h.requests|] == ClearPendingAnimatedMove
      && (h.transitionState.Some? || direction == 0 ==> r == h.(requests := h.requests + [ClearPendingAnimatedMove]))
      && (h.transitionState.None? && direction != 0 ==>
            && r.transitionState == Some(if direction > 0 then Next else Previous)
            && r.pendingMoveCount == h.pendingMoveCount + r.transitionState.value.Direction()
            && r.requests == h.requests + [ClearPendingAnimatedMove, WillMoveDate(r.transitionState.value.Direction())])
      && r.workPending == h.workPending
  {
  }

  /** Every event keeps the announced steps equal to the committed plus the pending ones. */
  lemma StepKeepsBalance(h: PagingState, e: Event)
    requires Balanced(h)
    ensures Balanced(Step(h, e))
  {
    var r := Step(h, e);
    StepDelta(h, e);
    SumsAppend(h.requests, r.requests[|h.requests|..]);
    assert h.requests + r.requests[|h.requests|..] == r.requests;
  }

  /** From a new handler, every trace stays balanced: no step is lost or committed twice. */
  lemma {:induction false} RunKeepsBalance(events: seq<Event>)
    ensures Balanced(Run(InitialPaging(), events))
  {
    if |events| > 0 {
      RunKeepsBalance(events[..|events| - 1]);
      StepKeepsBalance(Run(InitialPaging(), events[..|events| - 1]), events[|events| - 1]);
    }
  }

  /** When the flush runs, every step announced so far has been committed. */
  lemma SettledAfterFlush(events: seq<Event>)
    requires Run(InitialPaging(), events).workPending
    ensures var r := AfterWorkItem(Run(InitialPaging(), events));
      r.pendingMoveCount == 0 && Committed(r.requests) == Announced(r.requests)
  {
    RunKeepsBalance(events);
    StepKeepsBalance(Run(InitialPaging(), events), WorkItemFired);
  }

  /** A trace only appends calls. */
  lemma {:induction false} RunAppends(h: PagingState, events: seq<Event>)
    ensures h.requests <= Run(h, events).requests
  {
    if |events| > 0 {
      RunAppends(h, events[..|events| - 1]);
      StepDelta(Run(h, events[..|events| - 1]), events[|events| - 1]);
    }
  }

  /**
   * Starting with nothing pending, the count a flush would commit after any
   * trace without a flush is the net of the steps announced in that trace.
   */
  lemma {:induction false} NetStepSinceFlush(h: PagingState, events: seq<Event>)
    requires h.pendingMoveCount == 0
    requires forall i :: 0 <= i < |events| ==> !events[i].WorkItemFired?
    ensures var r := Run(h, events);
      |h.requests| <= |r.requests| && r.pendingMoveCount == Announced(r.requests[|h.requests|..])
  {
    RunAppends(h, events);
    var r := Run(h, events);
    if |events| == 0 {
      assert r.requests[|h.requests|..] == [];
    } else {
      var p := Run(h, events[..|events| - 1]);
      NetStepSinceFlush(h, events[..|events| - 1]);
      RunAppends(h, events[..|events| - 1]);
      StepDelta(p, events[|events| - 1]);
      var added := r.requests[|p.requests|..];
      assert r.requests[|h.requests|..] == p.requests[|h.requests|..] + added;
      SumsAppend(p.requests[|h.requests|..], added);
    }
  }

  /** A swipe to the next page and one back before the flush cancel: the flush commits no move. */
  lemma OppositeSwipesCancel(h: PagingState, size: real)
    requires h.transitionState.None? && h.pendingMoveCount == 0 && !h.workPending
    ensures var r := Run(h, [DragEnded(Horizontal, -60.0, 0.0, size), OffsetChanged,
                             DragEnded(Horizontal, 60.0, 0.0, size), OffsetChanged, WorkItemFired]);
      && r.requests == h.requests + [WillMoveDate(1), WillMoveDate(-1)]
      && r.pendingMoveCount == 0 && r.transitionState.None? && !r.workPending
  {
    var es := [DragEnded(Horizontal, -60.0, 0.0, size), OffsetChanged,
               DragEnded(Horizontal, 60.0, 0.0, size), OffsetChanged, WorkItemFired];
    var h1 := Step(h, es[0]);
    var h2 := Step(h1, es[1]);
    var h3 := Step(h2, es[2]);
    var h4 := Step(h3, es[3]);
    assert h4.pendingMoveCount == 0 && h4.workPending;
    assert Run(h, es[..1]) == h1 by { assert es[..1][..0] == []; }
    assert Run(h, es[..2]) == h2 by { assert es[..2][..1] == es[..1]; }
    assert Run(h, es[..3]) == h3 by { assert es[..3][..2] == es[..2]; }
    assert Run(h, es[..4]) == h4 by { assert es[..4][..3] == es[..3]; }
    assert es[..5][..4] == es[..4];
    assert h4.requests == h.requests + [WillMoveDate(1)] + [WillMoveDate(-1)];
  }

  /** An external trigger during a transition starts nothing: the page is not turned twice for one animation. */
  lemma TriggerDuringTransitionIgnored(h: PagingState, direction: int, size: real)
    requires h.transitionState.Some?
    ensures Step(h, ExternalTrigger(direction, size)).pendingMoveCount == h.pendingMoveCount
    ensures Announced(Step(h, ExternalTrigger(direction, size)).requests) == Announced(h.requests)
  {
    SumsAppend(h.requests, [ClearPendingAnimatedMove]);
  }

  // ---------------------------------------------------------------------
  // Effect on the view model

  /** The view model's state after the handler's calls, made at `now`. */
  function Apply(env: NavEnv, s: NavState, requests: seq<Request>, now: Instant): NavState
  {
    if |requests| == 0 then s
    else
      var s1 := Apply(env, s, requests[..|requests| - 1], now);
      match requests[|requests| - 1]
      case WillMoveDate(v) => AfterWillMoveDate(env, s1, v, now)
      case MoveDate(v) => AfterMoveDate(env, s1, v, now)
      case ClearPendingAnimatedMove => s1.(pendingAnimatedMove := None)
  }

  /** Cancelled swipes only announce: the displayed pages and the selection are those from before. */
  lemma CancelledSwipesKeepPage(env: NavEnv, s: NavState, now: Instant)
    ensures var r := Apply(env, s, [WillMoveDate(1), WillMoveDate(-1)], now);
      r.displayedDates == s.displayedDates && r.datesData == s.datesData && r.selectedDate == s.selectedDate
  {
    var reqs := [WillMoveDate(1), WillMoveDate(-1)];
    assert Apply(env, s, reqs[..1], now) == AfterWillMoveDate(env, s, 1, now) by {
      assert reqs[..1][..0] == [];
    }
    WillMoveDateEffect(env, s, 1, now);
    WillMoveDateEffect(env, AfterWillMoveDate(env, s, 1, now), -1, now);
  }

  // ---------------------------------------------------------------------
  // The handler

  /** `PagingGestureHandler`; the paging views set `isDragging` themselves before each drag callback. */
  class PagingGestureHandler {
    var offset: real
    var isDragging: bool
    var transitionState: Option<TransitionState>
    var pendingMoveCount: int
    var workPending: bool
    var requests: seq<Request>

    function State(): PagingState
      reads this
    {
      PagingState(offset, isDragging, transitionState, pendingMoveCount, workPending, requests)
    }

    constructor()
      ensures State() == InitialPaging()
    {
      offset := 0.0;
      isDragging := false;
      transitionState := None;
      pendingMoveCount := 0;
      workPending := false;
      requests := [];
    }

    method HandleDragGesture(axis: Axis, width: real, height: real, pageSize: real, nextPageSize: Option<real>)
      modifies this
      ensures State() == AfterDragGesture(old(State()), axis, width, height, pageSize, nextPageSize)
    {
      if isDragging {
        offset := Translation(axis, width, height);
        return;
      }
      var translation := Translation(axis, width, height);
      if translation > DragThreshold {
        transitionState := Some(Previous);
        pendingMoveCount := pendingMoveCount - 1;
        requests := requests + [WillMoveDate(-1)];
        offset := pageSize;
      } else if translation < -DragThreshold {
        transitionState := Some(Next);
        pendingMoveCount := pendingMoveCount + 1;
        requests := requests + [WillMoveDate(1)];
        offset := -nextPageSize.GetOr(pageSize);
      } else {
        transitionState := None;
        offset := 0.0;
      }
    }

    method HandleOffsetChange()
      modifies this
      ensures State() == AfterOffsetChange(old(State()))
    {
      if transitionState.None? || isDragging {
        return;
      }
      workPending := true;
    }

    /** The body of the scheduled `DispatchWorkItem`. */
    method RunPendingWork()
      modifies this
      ensures State() == AfterWorkItem(old(State()))
    {
      if !workPending {
        return;
      }
      var moveBy := pendingMoveCount;
      pendingMoveCount := 0;
      if moveBy != 0 {
        requests := requests + [MoveDate(moveBy)];
      }
      transitionState := None;
      offset := 0.0;
      workPending := false;
    }

    method HandleExternalTrigger(direction: int, pageSize: real, nextPageSize: Option<real>)
      modifies this
      ensures State() == AfterExternalTrigger(old(State()), direction, pageSize, nextPageSize)
    {
      requests := requests + [ClearPendingAnimatedMove];
      if transitionState.Some? {
        return;
      }
      if direction > 0 {
        transitionState := Some(Next);
        pendingMoveCount := pendingMoveCount + 1;
        requests := requests + [WillMoveDate(1)];
        offset := -nextPageSize.GetOr(pageSize);
      } else if direction < 0 {
        transitionState := Some(Previous);
        pendingMoveCount := pendingMoveCount - 1;
        requests := requests + [WillMoveDate(-1)];
        offset := pageSize;
      }
    }
  }
}
