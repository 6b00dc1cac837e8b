/**
 * The calendar configuration object (Sources/Public/TSCalendarConfig.swift).
 *
 * The auto-selection flag is named `autoSelect`, the name under which the
 * view model reads it.
 */
module CalendarConfig {
  import opened Enums

  datatype Config = Config(
    autoSelect: bool,
    displayMode: DisplayMode,
    heightStyle: HeightStyle,
    isPagingEnabled: bool,
    monthStyle: MonthStyle,
    scrollDirection: ScrollDirection,
    showHeader: bool,
    showWeekNumber: bool,
    startWeekDay: StartWeekDay)

  /** `TSCalendarConfig()` with every argument left at its default. */
  function DefaultConfig(): (c: Config)
    ensures c.autoSelect && c.displayMode == Month && c.heightStyle == Flexible
    ensures c.isPagingEnabled && c.monthStyle == Dynamic && c.scrollDirection == Vertical
    ensures c.showHeader && !c.showWeekNumber && c.startWeekDay == Sunday
  {
    Config(true, Month, Flexible, true, Dynamic, Vertical, true, false, Sunday)
  }

  // String interpolation of a value: `Bool` prints true/false, and an enum
  // that does not conform to CustomStringConvertible prints its case name.

  function BoolText(b: bool): string { if b then "true" else "false" }

  function DisplayModeText(m: DisplayMode): string
  {
    match m
    case Month => "month"
    case Week => "week"
  }

  function MonthStyleText(s: MonthStyle): string
  {
    match s
    case FixedWeeks => "fixed"
    case Dynamic => "dynamic"
  }

  function ScrollDirectionText(d: ScrollDirection): string
  {
    match d
    case Vertical => "vertical"
    case Horizontal => "horizontal"
  }

  function StartWeekDayText(d: StartWeekDay): string
  {
    match d
    case Sunday => "sunday"
    case Monday => "monday"
    case Tuesday => "tuesday"
    case Wednesday => "wednesday"
    case Thursday => "thursday"
    case Friday => "friday"
    case Saturday => "saturday"
  }

  /** `identifiableProperties` rendered as strings; `heightStyle` is deliberately not among them. */
  function IdentifiableProperties(c: Config): seq<string>
  {
    [BoolText(c.autoSelect), DisplayModeText(c.displayMode), BoolText(c.isPagingEnabled),
     MonthStyleText(c.monthStyle), ScrollDirectionText(c.scrollDirection), BoolText(c.showHeader),
     BoolText(c.showWeekNumber), StartWeekDayText(c.startWeekDay)]
  }

  /** `joined(separator:)` with a one-character separator. */
  function Join(parts: seq<string>, sep: char): string
  {
    if |parts| == 0 then ""
    else if |parts| == 1 then parts[0]
    else parts[0] + [sep] + Join(parts[1..], sep)
  }

  /** The view identity `id`: the identifiable properties joined by "_". */
  function Id(c: Config): string
  {
    Join(IdentifiableProperties(c), '_')
  }

  predicate NoSeparator(parts: seq<string>, sep: char)
  {
    forall i :: 0 <= i < |parts| ==> sep !in parts[i]
  }

  /** Two strings followed by the separator can be told apart at the first separator. */
  lemma SplitAtSeparator(a: string, b: string, r1: string, r2: string, sep: char)
    requires sep !in a && sep !in b && |a| <= |b|
    requires a + [sep] + r1 == b + [sep] + r2
    ensures a == b && r1 == r2
  {
    var j := a + [sep] + r1;
    assert j[|a|] == sep;
    assert a == j[..|a|];
    assert b == (b + [sep] + r2)[..|b|];
    assert r1 == j[|a| + 1..];
    assert r2 == (b + [sep] + r2)[|b| + 1..];
  }

  /** Joining parts that do not contain the separator loses nothing. */
  lemma {:induction false} JoinInjective(xs: seq<string>, ys: seq<string>, sep: char)
    requires |xs| == |ys| && NoSeparator(xs, sep) && NoSeparator(ys, sep)
    requires Join(xs, sep) == Join(ys, sep)
    ensures xs == ys
    decreases |xs|
  {
    if |xs| >= 2 {
      var a, b := xs[0], ys[0];
      assert sep !in a && sep !in b;
      if |a| <= |b| {
        SplitAtSeparator(a, b, Join(xs[1..], sep), Join(ys[1..], sep), sep);
      } else {
        SplitAtSeparator(b, a, Join(ys[1..], sep), Join(xs[1..], sep), sep);
      }
      assert NoSeparator(xs[1..], sep) && NoSeparator(ys[1..], sep);
      JoinInjective(xs[1..], ys[1..], sep);
      assert xs == [a] + xs[1..] && ys == [b] + ys[1..];
    }
  }

  lemma PropertiesHaveNoSeparator(c: Config)
    ensures NoSeparator(IdentifiableProperties(c), '_')
  {
    var p := IdentifiableProperties(c);
    forall i | 0 <= i < |p| ensures '_' !in p[i] {
      if i == 1 {
        match c.displayMode { case Month => case Week => }
      } else if i == 3 {
        match c.monthStyle { case FixedWeeks => case Dynamic => }
      } else if i == 4 {
        match c.scrollDirection { case Vertical => case Horizontal => }
      } else if i == 7 {
        match c.startWeekDay {
          case Sunday => case Monday => case Tuesday => case Wednesday =>
          case Thursday => case Friday => case Saturday =>
        }
      }
    }
  }

  predicate SameIdentity(c1: Config, c2: Config)
  {
    c1.autoSelect == c2.autoSelect && c1.displayMode == c2.displayMode
    && c1.isPagingEnabled == c2.isPagingEnabled && c1.monthStyle == c2.monthStyle
    && c1.scrollDirection == c2.scrollDirection && c1.showHeader == c2.showHeader
    && c1.showWeekNumber == c2.showWeekNumber && c1.startWeekDay == c2.startWeekDay
  }

  /** Two configurations have the same `id` exactly when they agree on the eight identifiable properties. */
  lemma IdIdentifiesConfig(c1: Config, c2: Config)
    ensures Id(c1) == Id(c2) <==> SameIdentity(c1, c2)
  {
    if Id(c1) == Id(c2) {
      var xs, ys := IdentifiableProperties(c1), IdentifiableProperties(c2);
      PropertiesHaveNoSeparator(c1);
      PropertiesHaveNoSeparator(c2);
      JoinInjective(xs, ys, '_');
      TextsInjective(c1, c2);
    }
  }

  lemma TextsInjective(c1: Config, c2: Config)
    requires IdentifiableProperties(c1) == IdentifiableProperties(c2)
    ensures SameIdentity(c1, c2)
  {
    var xs, ys := IdentifiableProperties(c1), IdentifiableProperties(c2);
    assert xs[0] == ys[0] && xs[2] == ys[2] && xs[5] == ys[5] && xs[6] == ys[6];
    assert DisplayModeText(c1.displayMode) == DisplayModeText(c2.displayMode) by { assert xs[1] == ys[1]; }
    assert MonthStyleText(c1.monthStyle) == MonthStyleText(c2.monthStyle) by { assert xs[3] == ys[3]; }
    assert ScrollDirectionText(c1.scrollDirection) == ScrollDirectionText(c2.scrollDirection) by { assert xs[4] == ys[4]; }
    assert StartWeekDayText(c1.startWeekDay) == StartWeekDayText(c2.startWeekDay) by { assert xs[7] == ys[7]; }
  }

  /** Changing only `heightStyle` leaves `id` unchanged. */
  lemma IdIgnoresHeightStyle(c: Config, h: HeightStyle)
    ensures Id(c.(heightStyle := h)) == Id(c)
  {
    IdIdentifiesConfig(c.(heightStyle := h), c);
  }

  /** The identity of the default configuration, part by part. */
  lemma DefaultId()
    ensures Id(DefaultConfig())
         == Join(["true", "month", "true", "dynamic", "vertical", "true", "false", "sunday"], '_')
  {
  }
}
