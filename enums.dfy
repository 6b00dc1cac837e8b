/**
 * The public configuration enums (Sources/Public/TSCalendarEnums.swift).
 * Fixed heights are `real` (CGFloat without rounding).
 */
module Enums {
  import opened Wrappers

  datatype DisplayMode = Month | Week {
    function RawValue(): string
    {
      match this
      case Month => "Month"
      case Week => "Week"
    }

    function Description(): string { RawValue() }
  }

  datatype HeightStyle = Flexible | Fixed(points: real) {
    /** The fixed height, `nil` for `.flexible`. */
    function Height(): (r: Option<real>)
      ensures r.None? <==> this == Flexible
      ensures Fixed? ==> r == Some(points)
    {
      match this
      case Flexible => None
      case Fixed(h) => Some(h)
    }

    /** `self == .flexible`. */
    predicate IsFlexible()
    {
      this == Flexible
    }

    /** `if case .fixed = self`. */
    function IsFixed(): (b: bool)
      ensures b <==> !IsFlexible()
    {
      match this
      case Fixed(_) => true
      case Flexible => false
    }
  }

  /** `.fixed` always shows six weeks; `.dynamic` as many as the month needs. */
  datatype MonthStyle = FixedWeeks | Dynamic

  datatype ScrollDirection = Vertical | Horizontal {
    function RawValue(): string
    {
      match this
      case Vertical => "Vertical"
      case Horizontal => "Horizontal"
    }

    function Description(): string { RawValue() }
  }

  datatype StartWeekDay = Sunday | Monday | Tuesday | Wednesday | Thursday | Friday | Saturday {
    function RawValue(): (r: int)
      ensures 0 <= r <= 6
    {
      match this
      case Sunday => 0
      case Monday => 1
      case Tuesday => 2
      case Wednesday => 3
      case Thursday => 4
      case Friday => 5
      case Saturday => 6
    }

    function Description(): string
    {
      match this
      case Sunday => "Sunday"
      case Monday => "Monday"
      case Tuesday => "Tuesday"
      case Wednesday => "Wednesday"
      case Thursday => "Thursday"
      case Friday => "Friday"
      case Saturday => "Saturday"
    }
  }

  /** `TSCalendarStartWeekDay.allCases`, in declaration order. */
  function AllStartWeekDays(): (all: seq<StartWeekDay>)
    ensures |all| == 7
    ensures forall i :: 0 <= i < 7 ==> all[i].RawValue() == i
  {
    [Sunday, Monday, Tuesday, Wednesday, Thursday, Friday, Saturday]
  }

  /** The synthesised `init?(rawValue:)`. */
  function StartWeekDayFromRaw(r: int): (d: Option<StartWeekDay>)
    ensures d.Some? <==> 0 <= r <= 6
    ensures d.Some? ==> d.value.RawValue() == r
  {
    if 0 <= r <= 6 then Some(AllStartWeekDays()[r]) else None
  }

  lemma StartWeekDayRawRoundTrip(d: StartWeekDay)
    ensures StartWeekDayFromRaw(d.RawValue()) == Some(d)
  {
  }

  datatype WeekdaySymbolType = VeryShort | Short | Narrow {
    function RawValue(): string
    {
      match this
      case VeryShort => "Very Short"
      case Short => "Short"
      case Narrow => "Narrow"
    }

    function Description(): string { RawValue() }
  }

  /** Event display style; `Hidden` is Swift's `.none`. */
  datatype EventDisplayStyle = Bars | Dots | Count | Hidden {
    function RawValue(): string
    {
      match this
      case Bars => "Bars"
      case Dots => "Dots"
      case Count => "Count"
      case Hidden => "None"
    }

    function Description(): string { RawValue() }
  }

  /** Each `description` that the source defines as `rawValue` is the raw value. */
  lemma DescriptionsAreRawValues(m: DisplayMode, s: ScrollDirection, w: WeekdaySymbolType, e: EventDisplayStyle)
    ensures m.Description() == m.RawValue() && s.Description() == s.RawValue()
    ensures w.Description() == w.RawValue() && e.Description() == e.RawValue()
  {
  }
}
