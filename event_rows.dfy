/**
 * Event bars of a week row (Sources/Internal/Views/Events/TSCalendarEventsView.swift):
 * events are clipped to the week and turned into column ranges, packed
 * greedily into rows of bars that do not overlap, and each day counts the
 * events it cannot show.
 *
 * A bar's vertical offset is its row number; the view multiplies it by the
 * row height, which is not modelled. Colours are left out of the event.
 */
module EventRows {
  import opened Wrappers
  import opened Gregorian
  import opened Grid

  /** `TSCalendarEvent` without its colours. */
  datatype CalendarEvent = CalendarEvent(id: Option<string>, title: string, startDate: Instant, endDate: Instant)

  /** `DateEvent`: an event with the first and last column it covers, and its row. */
  datatype DateEvent = DateEvent(event: CalendarEvent, startIndex: int, endIndex: int, offsetY: int)

  // ---------------------------------------------------------------------
  // Clipping to the week

  /** `firstIndex(where:)` for the cell on the same day as `d`. */
  function FirstSameDay(week: seq<CalendarDate>, d: Instant): (r: Option<nat>)
    ensures r.Some? ==> r.value < |week| && SameDay(week[r.value].date, d)
    ensures r.Some? ==> forall j :: 0 <= j < r.value ==> !SameDay(week[j].date, d)
    ensures r.None? ==> forall j :: 0 <= j < |week| ==> !SameDay(week[j].date, d)
  {
    if |week| == 0 then None
    else if SameDay(week[0].date, d) then Some(0)
    else match FirstSameDay(week[1..], d)
      case None => None
      case Some(i) => Some(i + 1)
  }

  /**
   * One event of `processEvents`: dropped unless its days meet the days of the
   * week's first and last cells; otherwise clipped to them and located by
   * the cells on its first and last day.
   */
  function ProcessEvent(week: seq<CalendarDate>, e: CalendarEvent): (r: Option<DateEvent>)
    ensures r.Some? ==> r.value.event == e && r.value.offsetY == 0
    ensures r.Some? ==> 0 <= r.value.startIndex < |week| && 0 <= r.value.endIndex < |week|
  {
    if |week| == 0 then None
    else
      var weekStart := StartOfDay(week[0].date);
      var weekEnd := StartOfDay(week[|week| - 1].date);
      var eventStart := StartOfDay(e.startDate);
      var eventEnd := StartOfDay(e.endDate);
      if !(eventStart <= weekEnd && eventEnd >= weekStart) then None
      else
        var adjustedStart := if eventStart < weekStart then weekStart else eventStart;
        var adjustedEnd := if eventEnd < weekEnd then eventEnd else weekEnd;
        match (FirstSameDay(week, adjustedStart), FirstSameDay(week, adjustedEnd))
        case (Some(i), Some(j)) => Some(DateEvent(e, i, j, 0))
        case _ => None
  }

  /** The cells hold consecutive days. */
  predicate Consecutive(week: seq<CalendarDate>)
  {
    forall i :: 0 <= i < |week| ==> DayOf(week[i].date) == DayOf(week[0].date) + i
  }

  /** In a week of consecutive days, the cell of a day in range is found at its distance from the first day. */
  lemma FirstSameDayConsecutive(week: seq<CalendarDate>, d: Instant)
    requires |week| > 0 && Consecutive(week)
    requires DayOf(week[0].date) <= DayOf(d) < DayOf(week[0].date) + |week|
    ensures FirstSameDay(week, d) == Some(DayOf(d) - DayOf(week[0].date))
  {
    var k := DayOf(d) - DayOf(week[0].date);
    assert SameDay(week[k].date, d);
  }

  /**
   * On a week of consecutive days, an event is kept exactly when its days
   * meet the week's, and it then covers the columns from its clipped first
   * day to its clipped last day; an event that ends no earlier than it
   * starts covers at least one column.
   */
  lemma ProcessEventColumns(week: seq<CalendarDate>, e: CalendarEvent)
    requires |week| > 0 && Consecutive(week)
    ensures var r := ProcessEvent(week, e);
      var first := DayOf(week[0].date);
      var last := first + |week| - 1;
      var s := DayOf(e.startDate);
      var t := DayOf(e.endDate);
      && (r.Some? <==> s <= last && first <= t)
      && (r.Some? ==>
            && r.value.startIndex == (if s < first then first else s) - first
            && r.value.endIndex == (if t < last then t else last) - first
            && (e.startDate <= e.endDate ==> r.value.startIndex <= r.value.endIndex))
  {
    var first := DayOf(week[0].date);
    var last := first + |week| - 1;
    var s := DayOf(e.startDate);
    var t := DayOf(e.endDate);
    var weekStart := StartOfDay(week[0].date);
    var weekEnd := StartOfDay(week[|week| - 1].date);
    assert DayOf(weekEnd) == last;
    DayOrder(StartOfDay(e.startDate), weekEnd);
    DayOrder(weekStart, StartOfDay(e.endDate));
    if s <= last && first <= t {
      var adjustedStart := if StartOfDay(e.startDate) < weekStart then weekStart else StartOfDay(e.startDate);
      var adjustedEnd := if StartOfDay(e.endDate) < weekEnd then StartOfDay(e.endDate) else weekEnd;
      DayOrder(StartOfDay(e.startDate), weekStart);
      DayOrder(StartOfDay(e.endDate), weekEnd);
      FirstSameDayConsecutive(week, adjustedStart);
      FirstSameDayConsecutive(week, adjustedEnd);
    }
  }

  /** Midnights are ordered as their days. */
  lemma DayOrder(a: Instant, b: Instant)
    requires TimeOfDay(a) == 0 && TimeOfDay(b) == 0
    ensures a <= b <==> DayOf(a) <= DayOf(b)
  {
    assert a == DayOf(a) * SecondsPerDay;
    assert b == DayOf(b) * SecondsPerDay;
  }

  /** The `compactMap` of `processEvents`: the kept events, clipped, in input order. */
  function AdjustedEvents(week: seq<CalendarDate>, events: seq<CalendarEvent>): (r: seq<DateEvent>)
    ensures |r| <= |events|
    ensures forall i :: 0 <= i < |r| ==> r[i].event in events && ProcessEvent(week, r[i].event) == Some(r[i])
    ensures forall e :: e in events && ProcessEvent(week, e).Some? ==> ProcessEvent(week, e).value in r
  {
    if |events| == 0 then []
    else
      var tail := AdjustedEvents(week, events[1..]);
      match ProcessEvent(week, events[0])
      case None => tail
      case Some(d) => [d] + tail
  }

  /** What the closure of `compactMap` gives for each input event, in input order. */
  function Clipped(week: seq<CalendarDate>, events: seq<CalendarEvent>): (r: seq<Option<DateEvent>>)
    ensures |r| == |events| && forall j :: 0 <= j < |events| ==> r[j] == ProcessEvent(week, events[j])
  {
    seq(|events|, j requires 0 <= j < |events| => ProcessEvent(week, events[j]))
  }

  /** The positions of `s` that hold a value, in increasing order. */
  function KeptPositions(s: seq<Option<DateEvent>>): seq<nat>
  {
    if |s| == 0 then []
    else
      var shifted := Shifted(KeptPositions(s[1..]));
      if s[0].Some? then [0] + shifted else shifted
  }

  /** Every position one on. */
  function Shifted(idx: seq<nat>): (r: seq<nat>)
    ensures |r| == |idx| && forall k :: 0 <= k < |idx| ==> r[k] == idx[k] + 1
  {
    seq(|idx|, k requires 0 <= k < |idx| => idx[k] + 1)
  }

  /** The positions of `s` that hold a value, each once and in increasing order. */
  ghost predicate ExactPositions(s: seq<Option<DateEvent>>, idx: seq<nat>)
  {
    && (forall k :: 0 <= k < |idx| ==> idx[k] < |s| && s[idx[k]].Some?)
    && (forall k, l :: 0 <= k < l < |idx| ==> idx[k] < idx[l])
    && (forall j :: 0 <= j < |s| && s[j].Some? ==> j in idx)
  }

  /** The kept positions are exactly the positions of `s` that hold a value. */
  lemma {:induction false} KeptPositionsExact(s: seq<Option<DateEvent>>)
    ensures ExactPositions(s, KeptPositions(s))
  {
    if |s| > 0 {
      KeptPositionsExact(s[1..]);
      var head: seq<nat> := if s[0].Some? then [0] else [];
      assert KeptPositions(s) == head + Shifted(KeptPositions(s[1..]));
      ExactPositionsStep(s, head, KeptPositions(s[1..]));
    }
  }

  /** One step of `KeptPositionsExact`: putting the first position in front of the rest's. */
  lemma ExactPositionsStep(s: seq<Option<DateEvent>>, head: seq<nat>, tail: seq<nat>)
    requires |s| > 0 && head == (if s[0].Some? then [0] else [])
    requires ExactPositions(s[1..], tail)
    ensures ExactPositions(s, head + Shifted(tail))
  {
    StepKeepsValues(s, head, tail);
    StepIncreasing(head, tail);
    StepCoversValues(s, head, tail);
  }

  /** After the step, the positions still increase. */
  lemma StepIncreasing(head: seq<nat>, tail: seq<nat>)
    requires head == [] || head == [0]
    requires forall k, l :: 0 <= k < l < |tail| ==> tail[k] < tail[l]
    ensures var idx := head + Shifted(tail);
      forall k, l :: 0 <= k < l < |idx| ==> idx[k] < idx[l]
  {
    var idx := head + Shifted(tail);
    forall k, l | 0 <= k < l < |idx|
      ensures idx[k] < idx[l]
    {
      assert idx[l] == tail[l - |head|] + 1;
      if k >= |head| {
        assert idx[k] == tail[k - |head|] + 1;
      }
    }
  }

  /** After the step, every position still holds a value. */
  lemma StepKeepsValues(s: seq<Option<DateEvent>>, head: seq<nat>, tail: seq<nat>)
    requires |s| > 0 && head == (if s[0].Some? then [0] else [])
    requires forall k :: 0 <= k < |tail| ==> tail[k] < |s[1..]| && s[1..][tail[k]].Some?
    ensures var idx := head + Shifted(tail);
      forall k :: 0 <= k < |idx| ==> idx[k] < |s| && s[idx[k]].Some?
  {
    var idx := head + Shifted(tail);
    forall k | |head| <= k < |idx|
      ensures idx[k] < |s| && s[idx[k]].Some?
    {
      assert idx[k] == tail[k - |head|] + 1;
      assert s[idx[k]] == s[1..][tail[k - |head|]];
    }
  }

  /** After the step, every position that holds a value is listed. */
  lemma StepCoversValues(s: seq<Option<DateEvent>>, head: seq<nat>, tail: seq<nat>)
    requires |s| > 0 && head == (if s[0].Some? then [0] else [])
    requires forall j :: 0 <= j < |s[1..]| && s[1..][j].Some? ==> j in tail
    ensures var idx := head + Shifted(tail);
      forall j :: 0 <= j < |s| && s[j].Some? ==> j in idx
  {
    var idx := head + Shifted(tail);
    forall j | 0 <= j < |s| && s[j].Some?
      ensures j in idx
    {
      if j == 0 {
        assert idx[0] == 0;
      } else {
        assert s[1..][j - 1] == s[j];
        var k :| 0 <= k < |tail| && tail[k] == j - 1;
        assert idx[k + |head|] == j;
      }
    }
  }

  /**
   * `compactMap` keeps one clipped event per kept input event, in input
   * order: there is an increasing list of input positions, naming every
   * event whose clipping is kept and only those, such that the k-th adjusted
   * event is the clipped event at the k-th position.
   */
  lemma {:induction false} AdjustedAtKeptPositions(week: seq<CalendarDate>, events: seq<CalendarEvent>)
    ensures var r := AdjustedEvents(week, events);
      var idx := KeptPositions(Clipped(week, events));
      && |r| == |idx|
      && (forall k :: 0 <= k < |r| ==> idx[k] < |events| && ProcessEvent(week, events[idx[k]]) == Some(r[k]))
      && (forall k, l :: 0 <= k < l < |idx| ==> idx[k] < idx[l])
      && (forall j :: 0 <= j < |events| && ProcessEvent(week, events[j]).Some? ==> j in idx)
  {
    KeptPositionsExact(Clipped(week, events));
    AdjustedFollowsClipped(week, events);
  }

  /** The k-th adjusted event is the clipped event at the k-th kept position. */
  lemma {:induction false} AdjustedFollowsClipped(week: seq<CalendarDate>, events: seq<CalendarEvent>)
    ensures var r := AdjustedEvents(week, events);
      var idx := KeptPositions(Clipped(week, events));
      && |r| == |idx|
      && forall k :: 0 <= k < |r| ==> idx[k] < |events| && ProcessEvent(week, events[idx[k]]) == Some(r[k])
  {
    if |events| > 0 {
      var c := Clipped(week, events);
      assert c[1..] == Clipped(week, events[1..]);
      AdjustedFollowsClipped(week, events[1..]);
      var head: seq<nat> := if c[0].Some? then [0] else [];
      assert KeptPositions(c) == head + Shifted(KeptPositions(c[1..]));
      ClippedStep(c, AdjustedEvents(week, events), AdjustedEvents(week, events[1..]), KeptPositions(c[1..]));
    }
  }

  /** One step of `AdjustedFollowsClipped`: the first kept event goes in front of the rest's. */
  lemma ClippedStep(c: seq<Option<DateEvent>>, r: seq<DateEvent>, rt: seq<DateEvent>, it: seq<nat>)
    requires |c| > 0 && |rt| == |it|
    requires forall k :: 0 <= k < |rt| ==> it[k] < |c| - 1 && c[1..][it[k]] == Some(rt[k])
    requires r == (if c[0].Some? then [c[0].value] else []) + rt
    ensures var idx := (if c[0].Some? then [0] else []) + Shifted(it);
      && |r| == |idx|
      && forall k :: 0 <= k < |r| ==> idx[k] < |c| && c[idx[k]] == Some(r[k])
  {
    var idx := (if c[0].Some? then [0] else []) + Shifted(it);
    var off := if c[0].Some? then 1 else 0;
    forall k | off <= k < |r|
      ensures idx[k] < |c| && c[idx[k]] == Some(r[k])
    {
      assert r[k] == rt[k - off] && idx[k] == it[k - off] + 1;
      assert c[idx[k]] == c[1..][it[k - off]];
    }
  }

  // ---------------------------------------------------------------------
  // Packing into rows

  /** Every event starts at a column. */
  predicate Placed(s: seq<DateEvent>)
  {
    forall i :: 0 <= i < |s| ==> s[i].startIndex >= 0
  }

  /** Ordered by first column. */
  predicate SortedByStart(s: seq<DateEvent>)
  {
    forall i, j :: 0 <= i < j < |s| ==> s[i].startIndex <= s[j].startIndex
  }

  /** Insert `e` before the first event that starts no earlier. */
  function InsertByStart(e: DateEvent, s: seq<DateEvent>): (r: seq<DateEvent>)
    requires SortedByStart(s)
    ensures SortedByStart(r)
    ensures multiset(r) == multiset(s) + multiset{e}
    ensures |r| == |s| + 1
    ensures r[0] == e || (|s| > 0 && r[0] == s[0])
    ensures e.startIndex >= 0 && Placed(s) ==> Placed(r)
  {
    if |s| == 0 || e.startIndex <= s[0].startIndex then [e] + s
    else
      var t := InsertByStart(e, s[1..]);
      InsertBehind(e, s, t);
      [s[0]] + t
  }

  /**
   * The recursive case of `InsertByStart`: an event that starts after the
   * first one is inserted into the rest, behind the first.
   */
  lemma InsertBehind(e: DateEvent, s: seq<DateEvent>, t: seq<DateEvent>)
    requires SortedByStart(s) && |s| > 0 && e.startIndex > s[0].startIndex
    requires SortedByStart(t) && multiset(t) == multiset(s[1..]) + multiset{e}
    requires e.startIndex >= 0 && Placed(s[1..]) ==> Placed(t)
    ensures SortedByStart([s[0]] + t)
    ensures multiset([s[0]] + t) == multiset(s) + multiset{e}
    ensures e.startIndex >= 0 && Placed(s) ==> Placed([s[0]] + t)
  {
    assert s == [s[0]] + s[1..];
    forall i | 0 <= i < |t|
      ensures s[0].startIndex <= t[i].startIndex
    {
      assert t[i] in multiset(t);
      if t[i] != e {
        assert t[i] in multiset(s[1..]);
        var k :| 0 <= k < |s[1..]| && s[1..][k] == t[i];
        assert s[k + 1] == t[i];
      }
    }
    var r := [s[0]] + t;
    forall i, j | 0 <= i < j < |r|
      ensures r[i].startIndex <= r[j].startIndex
    {
      assert r[j] == t[j - 1];
      if i > 0 {
        assert r[i] == t[i - 1];
      }
    }
    if e.startIndex >= 0 && Placed(s) {
      assert Placed(s[1..]);
      forall i | 0 <= i < |r|
        ensures r[i].startIndex >= 0
      {
        if i > 0 {
          assert r[i] == t[i - 1];
        }
      }
    }
  }

  /** `sorted { $0.startIndex < $1.startIndex }`, as a stable sort. */
  function SortByStart(s: seq<DateEvent>): (r: seq<DateEvent>)
    ensures SortedByStart(r)
    ensures multiset(r) == multiset(s)
    ensures |r| == |s|
    ensures Placed(s) ==> Placed(r)
  {
    if |s| == 0 then []
    else
      assert s == [s[0]] + s[1..];
      InsertByStart(s[0], SortByStart(s[1..]))
  }

  /** Each bar in a row starts after the previous one ends. */
  predicate Chained(row: seq<DateEvent>)
  {
    forall k :: 0 <= k < |row| - 1 ==> row[k].endIndex < row[k + 1].startIndex
  }

  /** The outcome of one filter pass: the row it builds, the events it keeps for later, and the last end column. */
  datatype PassResult = PassResult(row: seq<DateEvent>, rest: seq<DateEvent>, lastEndIndex: int)

  /**
   * One pass of `organizeEvents` over `rem`, left to right: an event that
   * starts after the last end column joins the row, any other stays.
   */
  function Pass(rem: seq<DateEvent>): (p: PassResult)
    ensures |p.row| + |p.rest| == |rem|
  {
    if |rem| == 0 then PassResult([], [], -1)
    else
      var p := Pass(rem[..|rem| - 1]);
      var e := rem[|rem| - 1];
      if e.startIndex > p.lastEndIndex then PassResult(p.row + [e], p.rest, e.endIndex)
      else PassResult(p.row, p.rest + [e], p.lastEndIndex)
  }

  /** One more event at the end of a pass's input: it joins the row or stays. */
  lemma PassSnoc(front: seq<DateEvent>, e: DateEvent)
    ensures var p := Pass(front);
      Pass(front + [e]) == if e.startIndex > p.lastEndIndex then PassResult(p.row + [e], p.rest, e.endIndex)
        else PassResult(p.row, p.rest + [e], p.lastEndIndex)
  {
    assert (front + [e])[..|front|] == front;
  }

  /** A pass splits its input between the row and the rest. */
  lemma {:induction false} PassSplits(rem: seq<DateEvent>)
    ensures multiset(Pass(rem).row) + multiset(Pass(rem).rest) == multiset(rem)
  {
    if |rem| > 0 {
      var front := rem[..|rem| - 1];
      var e := rem[|rem| - 1];
      var p := Pass(front);
      PassSplits(front);
      assert multiset(rem) == multiset(front) + multiset{e} by {
        assert rem == front + [e];
      }
      if e.startIndex > p.lastEndIndex {
        assert multiset(p.row + [e]) == multiset(p.row) + multiset{e};
      } else {
        assert multiset(p.rest + [e]) == multiset(p.rest) + multiset{e};
      }
    }
  }

  /** The bars of a pass's row do not overlap, and the last end column is the row's last bar's. */
  lemma {:induction false} PassChained(rem: seq<DateEvent>)
    ensures var p := Pass(rem);
      && Chained(p.row)
      && p.lastEndIndex == (if |p.row| == 0 then -1 else p.row[|p.row| - 1].endIndex)
  {
    if |rem| > 0 {
      var front := rem[..|rem| - 1];
      var e := rem[|rem| - 1];
      var p := Pass(front);
      PassChained(front);
      if e.startIndex > p.lastEndIndex {
        ChainedSnoc(p.row, e);
      }
    }
  }

  /** A pass always places the first remaining event when it starts at a column: each pass makes progress. */
  lemma {:induction false} PassPlacesFirst(rem: seq<DateEvent>)
    requires |rem| > 0 && rem[0].startIndex > -1
    ensures |Pass(rem).row| > 0 && Pass(rem).row[0] == rem[0]
  {
    if |rem| == 1 {
      assert rem[..0] == [];
    } else {
      var front := rem[..|rem| - 1];
      assert front[0] == rem[0];
      PassPlacesFirst(front);
    }
  }

  /** A bar that starts after the row's last one ends can join it. */
  lemma ChainedSnoc(row: seq<DateEvent>, e: DateEvent)
    requires Chained(row)
    requires |row| > 0 ==> row[|row| - 1].endIndex < e.startIndex
    ensures Chained(row + [e])
  {
    var r := row + [e];
    forall k | 0 <= k < |r| - 1
      ensures r[k].endIndex < r[k + 1].startIndex
    {
      if k < |row| - 1 {
        assert r[k] == row[k] && r[k + 1] == row[k + 1];
      }
    }
  }

  /** The rows, in order, as one sequence. */
  function Flatten(rows: seq<seq<DateEvent>>): seq<DateEvent>
  {
    if |rows| == 0 then [] else rows[0] + Flatten(rows[1..])
  }

  /**
   * The `while` loop of `organizeEvents`: passes until no event remains.
   * Every event lands in exactly one row, no row is empty, and bars in a row
   * do not overlap.
   */
  function Pack(rem: seq<DateEvent>): (rows: seq<seq<DateEvent>>)
    requires Placed(rem)
    ensures |rows| <= |rem|
    ensures forall r :: 0 <= r < |rows| ==> |rows[r]| > 0 && Chained(rows[r])
    ensures multiset(Flatten(rows)) == multiset(rem)
    decreases |rem|
  {
    if |rem| == 0 then []
    else
      var p := Pass(rem);
      PassSplits(rem);
      PassChained(rem);
      PassKeepsPlaced(rem);
      var rows := [p.row] + Pack(p.rest);
      assert rows[1..] == Pack(p.rest);
      rows
  }

  /** One step of the packing: the first row is the first pass's row, and the rest is packed from what it kept. */
  lemma PackStep(done: seq<seq<DateEvent>>, rem: seq<DateEvent>)
    requires Placed(rem) && |rem| > 0
    ensures Placed(Pass(rem).rest) && |Pass(rem).rest| < |rem|
    ensures done + Pack(rem) == (done + [Pass(rem).row]) + Pack(Pass(rem).rest)
  {
    PassKeepsPlaced(rem);
    var p := Pass(rem);
    assert Pack(rem) == [p.row] + Pack(p.rest);
    assert done + ([p.row] + Pack(p.rest)) == (done + [p.row]) + Pack(p.rest);
  }

  /** What a pass keeps for later still starts at columns, and is shorter than its input. */
  lemma PassKeepsPlaced(rem: seq<DateEvent>)
    requires Placed(rem) && |rem| > 0
    ensures Placed(Pass(rem).rest) && |Pass(rem).rest| < |rem|
  {
    var p := Pass(rem);
    PassSplits(rem);
    PassPlacesFirst(rem);
    forall i | 0 <= i < |p.rest|
      ensures p.rest[i].startIndex >= 0
    {
      assert p.rest[i] in multiset(rem);
    }
  }

  /** Each event's `offsetY` set to its row. */
  function Labelled(rows: seq<seq<DateEvent>>): (r: seq<seq<DateEvent>>)
    ensures |r| == |rows|
    ensures forall k :: 0 <= k < |rows| ==> |r[k]| == |rows[k]|
    ensures forall k, i :: 0 <= k < |rows| && 0 <= i < |rows[k]| ==> r[k][i] == rows[k][i].(offsetY := k)
  {
    seq(|rows|, k requires 0 <= k < |rows| => seq(|rows[k]|, i requires 0 <= i < |rows[k]| => rows[k][i].(offsetY := k)))
  }

  /** What `organizeEvents` returns. */
  function Organized(events: seq<DateEvent>): seq<seq<DateEvent>>
    requires Placed(events)
  {
    Labelled(Pack(SortByStart(events)))
  }

  /**
   * The body of `organizeEvents`'s `while` loop: one left-to-right filter
   * over the remaining events, building the next row.
   */
  method NextRow(remaining: seq<DateEvent>) returns (currentRow: seq<DateEvent>, kept: seq<DateEvent>, lastEndIndex: int)
    ensures PassResult(currentRow, kept, lastEndIndex) == Pass(remaining)
  {
    currentRow, kept, lastEndIndex := [], [], -1;
    for i := 0 to |remaining|
      invariant PassResult(currentRow, kept, lastEndIndex) == Pass(remaining[..i])
    {
      var e := remaining[i];
      assert remaining[..i + 1] == remaining[..i] + [e];
      PassSnoc(remaining[..i], e);
      if e.startIndex > lastEndIndex {
        currentRow := currentRow + [e];
        lastEndIndex := e.endIndex;
      } else {
        kept := kept + [e];
      }
    }
    assert remaining[..|remaining|] == remaining;
  }

  /** The final loop of `organizeEvents`: each event's `offsetY` becomes its row number. */
  method LabelRows(packed: seq<seq<DateEvent>>) returns (rows: seq<seq<DateEvent>>)
    ensures rows == Labelled(packed)
  {
    rows := packed;
    for k := 0 to |rows|
      invariant |rows| == |packed|
      invariant forall q :: 0 <= q < k ==> rows[q] == Labelled(packed)[q]
      invariant forall q :: k <= q < |rows| ==> rows[q] == packed[q]
    {
      var row := rows[k];
      for i := 0 to |row|
        invariant |row| == |packed[k]|
        invariant forall j :: 0 <= j < i ==> row[j] == packed[k][j].(offsetY := k)
        invariant forall j :: i <= j < |row| ==> row[j] == packed[k][j]
      {
        row := row[i := row[i].(offsetY := k)];
      }
      rows := rows[k := row];
    }
  }

  /**
   * `organizeEvents`: sort by first column, then pass over the remaining
   * events until none is left, each pass making one row; finally write each
   * event's row into its `offsetY`.
   */
  method OrganizeEvents(events: seq<DateEvent>) returns (rows: seq<seq<DateEvent>>)
    requires Placed(events)
    ensures rows == Organized(events)
  {
    var remainingEvents := SortByStart(events);
    var packed := PackRows(remainingEvents);
    rows := LabelRows(packed);
  }

  /** The `while` loop of `organizeEvents`: one row per pass until no event remains. */
  method PackRows(sorted: seq<DateEvent>) returns (packed: seq<seq<DateEvent>>)
    requires Placed(sorted)
    ensures packed == Pack(sorted)
  {
    packed := [];
    var remaining := sorted;
    while |remaining| > 0
      invariant Placed(remaining)
      invariant packed + Pack(remaining) == Pack(sorted)
      decreases |remaining|
    {
      var currentRow, kept, lastEndIndex := NextRow(remaining);
      PackStep(packed, remaining);
      assert currentRow == Pass(remaining).row && kept == Pass(remaining).rest;
      remaining := kept;
      packed := packed + [currentRow];
    }
    assert Pack(remaining) == [];
    assert packed + [] == packed;
  }

  /** `processEvents`: clip the events to the week, then organize them into rows. */
  method ProcessEvents(week: seq<CalendarDate>, events: seq<CalendarEvent>) returns (rows: seq<seq<DateEvent>>)
    ensures rows == Organized(AdjustedEvents(week, events))
  {
    var adjusted := AdjustedEvents(week, events);
    rows := OrganizeEvents(adjusted);
  }

  // ---------------------------------------------------------------------
  // Properties of the packing

  /**
   * `organizeEvents` partitions its input: the rows hold the events, each
   * once, with the row number as `offsetY`; there are at most as many rows
   * as events, none empty, and in each row every bar starts after the
   * previous one ends.
   */
  lemma OrganizedRows(events: seq<DateEvent>)
    requires Placed(events)
    ensures var rows := Organized(events);
      var packed := Pack(SortByStart(events));
      && rows == Labelled(packed)
      && multiset(Flatten(packed)) == multiset(events)
      && |rows| <= |events|
      && (forall k :: 0 <= k < |rows| ==> |rows[k]| > 0 && Chained(rows[k]))
      && (forall k, i :: 0 <= k < |rows| && 0 <= i < |rows[k]| ==> rows[k][i].offsetY == k)
  {
    OrganizedPartition(events);
    OrganizedRowsChained(events);
  }

  /** The packed rows hold the input events, each once, in no more rows than events. */
  lemma OrganizedPartition(events: seq<DateEvent>)
    requires Placed(events)
    ensures multiset(Flatten(Pack(SortByStart(events)))) == multiset(events)
    ensures |Organized(events)| <= |events|
  {
    var sorted := SortByStart(events);
    assert multiset(sorted) == multiset(events) && |sorted| == |events|;
  }

  /** Every labelled row is non-empty, its bars do not overlap, and its events carry the row number. */
  lemma OrganizedRowsChained(events: seq<DateEvent>)
    requires Placed(events)
    ensures var rows := Organized(events);
      && (forall k :: 0 <= k < |rows| ==> |rows[k]| > 0 && Chained(rows[k]))
      && (forall k, i :: 0 <= k < |rows| && 0 <= i < |rows[k]| ==> rows[k][i].offsetY == k)
  {
    var packed := Pack(SortByStart(events));
    var rows := Labelled(packed);
    forall k | 0 <= k < |rows|
      ensures |rows[k]| > 0 && Chained(rows[k])
    {
      LabelKeepsColumns(packed[k], rows[k], k);
    }
  }

  /** Setting the row leaves the columns, so the bars still do not overlap. */
  lemma LabelKeepsColumns(row: seq<DateEvent>, labelled: seq<DateEvent>, k: int)
    requires Chained(row) && |labelled| == |row|
    requires forall i :: 0 <= i < |row| ==> labelled[i] == row[i].(offsetY := k)
    ensures Chained(labelled)
  {
    forall j | 0 <= j < |labelled| - 1
      ensures labelled[j].endIndex < labelled[j + 1].startIndex
    {
      assert row[j].endIndex < row[j + 1].startIndex;
    }
  }

  // ---------------------------------------------------------------------
  // As few rows as possible

  /** Every event starts at a column and ends no earlier than it starts. */
  predicate Spans(s: seq<DateEvent>)
  {
    forall e :: e in s ==> 0 <= e.startIndex <= e.endIndex
  }

  /** How many events of `s` cover `column`. */
  function Depth(s: seq<DateEvent>, column: int): nat
  {
    if |s| == 0 then 0
    else (if s[0].startIndex <= column <= s[0].endIndex then 1 else 0) + Depth(s[1..], column)
  }

  /** The count is the number of covering events `RemainingCount` starts from. */
  lemma {:induction false} DepthIsCovering(s: seq<DateEvent>, column: int)
    ensures Depth(s, column) == |Covering(s, column)|
  {
    if |s| > 0 {
      DepthIsCovering(s[1..], column);
    }
  }

  /** An event of `s` that covers `column` makes its count positive. */
  lemma {:induction false} DepthPositive(s: seq<DateEvent>, f: DateEvent, column: int)
    requires f in s && f.startIndex <= column <= f.endIndex
    ensures Depth(s, column) >= 1
  {
    if s[0] != f {
      assert f in s[1..];
      DepthPositive(s[1..], f, column);
    }
  }

  /**
   * `organizeEvents` uses as few rows as any layout can: when every event
   * ends no earlier than it starts, no column is covered by more events than
   * there are rows, and some column is covered by as many.
   */
  lemma OrganizedRowsFewest(events: seq<DateEvent>)
    requires Spans(events)
    ensures Placed(events)
    ensures forall column :: Depth(events, column) <= |Organized(events)|
    ensures exists column :: Depth(events, column) == |Organized(events)|
  {
    var sorted := SortByStart(events);
    SortKeepsSpans(events);
    forall column
      ensures Depth(sorted, column) == Depth(events, column)
    {
      SortKeepsDepth(events, column);
    }
    var column := PackDepth(sorted);
    assert Depth(events, column) == |Organized(events)|;
  }

  /** Sorting keeps the number of events on each column. */
  lemma {:induction false} SortKeepsDepth(s: seq<DateEvent>, column: int)
    ensures Depth(SortByStart(s), column) == Depth(s, column)
  {
    if |s| > 0 {
      SortKeepsDepth(s[1..], column);
      InsertKeepsDepth(s[0], SortByStart(s[1..]), column);
      assert s == [s[0]] + s[1..];
      DepthAppend([s[0]], s[1..], column);
    }
  }

  /** Sorting keeps the events, so they still span their columns. */
  lemma SortKeepsSpans(s: seq<DateEvent>)
    requires Spans(s)
    ensures Spans(SortByStart(s)) && Placed(s)
  {
    forall e | e in SortByStart(s)
      ensures e in s
    {
      assert e in multiset(SortByStart(s));
    }
    forall i | 0 <= i < |s|
      ensures s[i].startIndex >= 0
    {
      assert s[i] in s;
    }
  }

  /** Inserting an event adds its one cover, if any, to each column. */
  lemma {:induction false} InsertKeepsDepth(e: DateEvent, s: seq<DateEvent>, column: int)
    requires SortedByStart(s)
    ensures Depth(InsertByStart(e, s), column) == Depth([e], column) + Depth(s, column)
  {
    if |s| == 0 || e.startIndex <= s[0].startIndex {
      DepthAppend([e], s, column);
    } else {
      var tail := s[1..];
      assert SortedByStart(tail);
      var t := InsertByStart(e, tail);
      assert InsertByStart(e, s) == [s[0]] + t;
      InsertKeepsDepth(e, tail, column);
      DepthAppend([s[0]], t, column);
      DepthAppend([s[0]], tail, column);
      assert s == [s[0]] + tail;
    }
  }

  /** The covers of a concatenation are those of each part. */
  lemma {:induction false} DepthAppend(a: seq<DateEvent>, b: seq<DateEvent>, column: int)
    ensures Depth(a + b, column) == Depth(a, column) + Depth(b, column)
  {
    if |a| == 0 {
      assert a + b == b;
    } else {
      assert (a + b)[0] == a[0] && (a + b)[1..] == a[1..] + b;
      DepthAppend(a[1..], b, column);
    }
  }

  /**
   * Packing sorted events that span their columns: every column is covered
   * by at most as many events as there are rows, and `column` by exactly as
   * many.
   */
  lemma {:induction false} PackDepth(rem: seq<DateEvent>) returns (column: int)
    requires SortedByStart(rem) && Spans(rem)
    ensures Placed(rem)
    ensures forall x :: Depth(rem, x) <= |Pack(rem)|
    ensures Depth(rem, column) == |Pack(rem)|
    decreases |rem|
  {
    if |rem| == 0 {
      column := 0;
    } else {
      var p := Pass(rem);
      PassSplits(rem);
      PassChained(rem);
      PassKeepsPlaced(rem);
      PassKeepsSorted(rem);
      assert Spans(p.row) && Spans(p.rest) by {
        forall e | e in p.row || e in p.rest
          ensures e in rem
        {
          assert e in multiset(p.row) + multiset(p.rest);
        }
      }
      var c := PackDepth(p.rest);
      assert |Pack(rem)| == 1 + |Pack(p.rest)|;
      forall x
        ensures Depth(rem, x) <= |Pack(rem)|
      {
        PassDepthSplit(rem, x);
        ChainedDepth(p.row, x);
      }
      column := PassDeepest(rem, c);
    }
  }

  /** Across one pass, each column's covers are split between the row and the rest. */
  lemma {:induction false} PassDepthSplit(rem: seq<DateEvent>, column: int)
    ensures Depth(rem, column) == Depth(Pass(rem).row, column) + Depth(Pass(rem).rest, column)
  {
    if |rem| > 0 {
      var front := rem[..|rem| - 1];
      var e := rem[|rem| - 1];
      var p := Pass(front);
      PassDepthSplit(front, column);
      assert rem == front + [e];
      DepthAppend(front, [e], column);
      if e.startIndex > p.lastEndIndex {
        DepthAppend(p.row, [e], column);
      } else {
        DepthAppend(p.rest, [e], column);
      }
    }
  }

  /** Bars that do not overlap cover each column at most once. */
  lemma {:induction false} ChainedDepth(row: seq<DateEvent>, column: int)
    requires Chained(row) && Spans(row)
    ensures Depth(row, column) <= 1
  {
    if |row| > 1 {
      assert row[1] in row;
      if row[0].startIndex <= column <= row[0].endIndex {
        NoneCovering(row[1..], column);
      } else {
        ChainedDepth(row[1..], column);
      }
    } else if |row| == 1 {
      assert row[1..] == [];
    }
  }

  /** Bars that do not overlap and all start after `column` leave it uncovered. */
  lemma {:induction false} NoneCovering(row: seq<DateEvent>, column: int)
    requires Chained(row) && Spans(row)
    requires |row| > 0 ==> column < row[0].startIndex
    ensures Depth(row, column) == 0
  {
    if |row| > 0 {
      assert row[0] in row;
      if |row| > 1 {
        assert row[1] in row;
      }
      NoneCovering(row[1..], column);
    }
  }

  /** What a pass keeps for later is still ordered by first column. */
  lemma {:induction false} PassKeepsSorted(rem: seq<DateEvent>)
    requires SortedByStart(rem)
    ensures SortedByStart(Pass(rem).rest)
  {
    if |rem| > 0 {
      var front := rem[..|rem| - 1];
      var e := rem[|rem| - 1];
      var p := Pass(front);
      PassKeepsSorted(front);
      if e.startIndex <= p.lastEndIndex {
        PassSplits(front);
        forall i | 0 <= i < |p.rest|
          ensures p.rest[i].startIndex <= e.startIndex
        {
          assert p.rest[i] in multiset(p.rest);
          assert p.rest[i] in multiset(front);
          var k :| 0 <= k < |front| && front[k] == p.rest[i];
          assert rem[k] == front[k];
        }
      }
    }
  }

  /** Every event a pass keeps starts no later than the last end column, which only grows. */
  lemma {:induction false} PassRestBefore(rem: seq<DateEvent>)
    requires Spans(rem)
    ensures forall e :: e in Pass(rem).rest ==> e.startIndex <= Pass(rem).lastEndIndex
    ensures |rem| > 0 ==> Pass(rem).lastEndIndex >= Pass(rem[..|rem| - 1]).lastEndIndex
  {
    if |rem| > 0 {
      var front := rem[..|rem| - 1];
      assert forall e :: e in front ==> e in rem;
      PassRestBefore(front);
      assert rem[|rem| - 1] in rem;
    }
  }

  /**
   * For any column the rest of a pass covers `depth` times, some column is
   * covered one more time by the pass's input: the row takes a bar from
   * every column of greatest depth.
   */
  lemma {:induction false} PassDeepest(rem: seq<DateEvent>, x: int) returns (y: int)
    requires |rem| > 0 && SortedByStart(rem) && Spans(rem)
    ensures Depth(rem, y) >= Depth(Pass(rem).rest, x) + 1
  {
    var front := rem[..|rem| - 1];
    var e := rem[|rem| - 1];
    Unsnoc(rem);
    assert rem == front + [e];
    var p := Pass(front);
    if |front| == 0 {
      y := e.startIndex;
      DepthSnoc(front, e, y);
      assert Pass(rem).rest == [];
    } else if e.startIndex > p.lastEndIndex {
      y := PassDeepest(front, x);
      DepthSnoc(front, e, y);
    } else if !(e.startIndex <= x <= e.endIndex) {
      y := PassDeepest(front, x);
      DepthSnoc(front, e, y);
      DepthSnoc(p.rest, e, x);
    } else {
      y := PassDeepestKept(rem, x);
    }
  }

  /** The last event of a non-empty input, and the front before it, keep the input's properties. */
  lemma Unsnoc(rem: seq<DateEvent>)
    requires |rem| > 0 && SortedByStart(rem) && Spans(rem)
    ensures var front := rem[..|rem| - 1];
      var e := rem[|rem| - 1];
      && SortedByStart(front) && Spans(front)
      && 0 <= e.startIndex <= e.endIndex
      && (forall k :: 0 <= k < |front| ==> front[k].startIndex <= e.startIndex)
  {
    assert rem[|rem| - 1] in rem;
    assert forall f :: f in rem[..|rem| - 1] ==> f in rem;
  }

  /** One more event at the end adds its cover, if any. */
  lemma DepthSnoc(front: seq<DateEvent>, e: DateEvent, column: int)
    ensures Depth(front + [e], column) == Depth(front, column) + (if e.startIndex <= column <= e.endIndex then 1 else 0)
  {
    DepthAppend(front, [e], column);
    assert [e][1..] == [];
  }

  /** A column a row bar covers has one more cover in the pass's input than in what the pass keeps. */
  lemma CoveredByRow(rem: seq<DateEvent>, f: DateEvent, column: int)
    requires f in Pass(rem).row && f.startIndex <= column <= f.endIndex
    ensures Depth(rem, column) >= Depth(Pass(rem).rest, column) + 1
  {
    PassDepthSplit(rem, column);
    DepthPositive(Pass(rem).row, f, column);
  }

  /**
   * The case of `PassDeepest` where the input's last event stays for later
   * and covers `x`: the row's last bar, which ends at the pass's last end
   * column, covers `x`, or else every kept event covering `x` also covers
   * that end column.
   */
  lemma PassDeepestKept(rem: seq<DateEvent>, x: int) returns (y: int)
    requires |rem| > 1 && SortedByStart(rem) && Spans(rem)
    requires var e := rem[|rem| - 1];
      e.startIndex <= Pass(rem[..|rem| - 1]).lastEndIndex && e.startIndex <= x <= e.endIndex
    ensures Depth(rem, y) >= Depth(Pass(rem).rest, x) + 1
  {
    var front := rem[..|rem| - 1];
    var e := rem[|rem| - 1];
    var p := Pass(front);
    Unsnoc(rem);
    var last := LastBar(front, e.startIndex);
    assert Pass(rem).row == p.row;
    if x <= p.lastEndIndex {
      y := x;
      CoveredByRow(rem, last, x);
    } else {
      y := p.lastEndIndex;
      CoveredByRow(rem, last, y);
      var rest := Pass(rem).rest;
      assert rest == p.rest + [e];
      PassRestBefore(front);
      forall f | f in rest && f.startIndex <= x <= f.endIndex
        ensures f.startIndex <= y <= f.endIndex
      {
      }
      DepthMonotone(rest, x, y);
    }
  }

  /**
   * When the last end column of a pass is at least `start`, the pass's row
   * has a last bar, which ends there and starts no later than any event
   * that starts at or after every input event.
   */
  lemma LastBar(front: seq<DateEvent>, start: int) returns (last: DateEvent)
    requires Spans(front) && start >= 0 && start <= Pass(front).lastEndIndex
    requires forall k :: 0 <= k < |front| ==> front[k].startIndex <= start
    ensures last in Pass(front).row
    ensures last.endIndex == Pass(front).lastEndIndex && last.startIndex <= start
  {
    var p := Pass(front);
    PassChained(front);
    PassSplits(front);
    assert |p.row| > 0;
    last := p.row[|p.row| - 1];
    assert last in multiset(front);
    var k :| 0 <= k < |front| && front[k] == last;
  }

  /** When every event covering `x` also covers `y`, `y` has at least as many covers. */
  lemma {:induction false} DepthMonotone(s: seq<DateEvent>, x: int, y: int)
    requires forall f :: f in s && f.startIndex <= x <= f.endIndex ==> f.startIndex <= y <= f.endIndex
    ensures Depth(s, x) <= Depth(s, y)
  {
    if |s| > 0 {
      assert s[0] in s;
      assert forall f :: f in s[1..] ==> f in s;
      DepthMonotone(s[1..], x, y);
    }
  }

  // ---------------------------------------------------------------------
  // Counting what does not fit

  /** The events whose columns include `dayIndex`. */
  function Covering(s: seq<DateEvent>, dayIndex: int): (r: seq<DateEvent>)
    ensures |r| <= |s|
    ensures forall x :: x in r <==> x in s && x.startIndex <= dayIndex <= x.endIndex
  {
    if |s| == 0 then []
    else (if s[0].startIndex <= dayIndex <= s[0].endIndex then [s[0]] else []) + Covering(s[1..], dayIndex)
  }

  /** The events in a row before `maxRows`. */
  function Visible(s: seq<DateEvent>, maxRows: int): (r: seq<DateEvent>)
    ensures |r| <= |s|
    ensures forall x :: x in r <==> x in s && x.offsetY < maxRows
  {
    if |s| == 0 then []
    else (if s[0].offsetY < maxRows then [s[0]] else []) + Visible(s[1..], maxRows)
  }

  /** The events in a row at or after `maxRows`. */
  function Hidden(s: seq<DateEvent>, maxRows: int): (r: seq<DateEvent>)
    ensures forall x :: x in r <==> x in s && x.offsetY >= maxRows
  {
    if |s| == 0 then []
    else (if s[0].offsetY >= maxRows then [s[0]] else []) + Hidden(s[1..], maxRows)
  }

  /** Every event is visible or hidden, never both. */
  lemma {:induction false} VisibleHiddenSplit(s: seq<DateEvent>, maxRows: int)
    ensures |Visible(s, maxRows)| + |Hidden(s, maxRows)| == |s|
  {
    if |s| > 0 {
      VisibleHiddenSplit(s[1..], maxRows);
    }
  }

  /** The column of the cell on the same day as cell `index`, or -1. */
  function DayIndex(week: seq<CalendarDate>, index: int): int
    requires 0 <= index < |week|
  {
    match FirstSameDay(week, week[index].date)
    case Some(i) => i
    case None => -1
  }

  /** The "+N" count under cell `index`: the events covering its day less those in the shown rows. */
  function RemainingCount(week: seq<CalendarDate>, rows: seq<seq<DateEvent>>, index: int, maxRows: int): (n: int)
    requires 0 <= index < |week|
    ensures n >= 0
  {
    var all := Covering(Flatten(rows), DayIndex(week, index));
    |all| - |Visible(all, maxRows)|
  }

  /**
   * The count is exactly the covering events not shown, so "+N" appears
   * exactly when some event on that day sits in a row at or after `maxRows`.
   */
  lemma RemainingIsHidden(week: seq<CalendarDate>, rows: seq<seq<DateEvent>>, index: int, maxRows: int)
    requires 0 <= index < |week|
    ensures var all := Covering(Flatten(rows), DayIndex(week, index));
      && RemainingCount(week, rows, index, maxRows) == |Hidden(all, maxRows)|
      && (RemainingCount(week, rows, index, maxRows) > 0 <==>
            exists x :: x in Flatten(rows) && x.startIndex <= DayIndex(week, index) <= x.endIndex && x.offsetY >= maxRows)
  {
    var all := Covering(Flatten(rows), DayIndex(week, index));
    VisibleHiddenSplit(all, maxRows);
    var h := Hidden(all, maxRows);
    if |h| > 0 {
      assert h[0] in h;
    }
  }

  /** In a week of distinct days, the column of cell `index` is `index` itself. */
  lemma DayIndexOfConsecutive(week: seq<CalendarDate>, index: int)
    requires Consecutive(week) && 0 <= index < |week|
    ensures DayIndex(week, index) == index
  {
    FirstSameDayConsecutive(week, week[index].date);
  }
}
