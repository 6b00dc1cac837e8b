/**
 * The proleptic Gregorian calendar on integer day numbers, the part of
 * Foundation's `Calendar(identifier: .gregorian)` the calendar component uses.
 *
 * Day 0 is 1970-01-01. Months are numbered consecutively by a month index
 * `12 * year + (month - 1)`, so that "n months later" is index arithmetic.
 * An `Instant` (Foundation's `Date`) counts seconds from 1970-01-01T00:00 in
 * the calendar's one time zone; there are no daylight-saving gaps.
 */
module Gregorian {

  type Instant = int

  const SecondsPerDay: int := 86400

  // ---------------------------------------------------------------------
  // Years and months

  predicate IsLeapYear(y: int)
  {
    y % 4 == 0 && (y % 100 != 0 || y % 400 == 0)
  }

  /** Length of month `m` (1 = January) of year `y`: the reference table. */
  function DaysInMonthOf(y: int, m: int): (n: int)
    requires 1 <= m <= 12
    ensures 28 <= n <= 31
    ensures m == 2 ==> (n == 29 <==> IsLeapYear(y))
  {
    if m == 2 then (if IsLeapYear(y) then 29 else 28)
    else if m == 4 || m == 6 || m == 9 || m == 11 then 30
    else 31
  }

  function YearOfIndex(mi: int): int { mi / 12 }

  /** Month number 1..12 of a month index. */
  function MonthOfIndex(mi: int): (m: int)
    ensures 1 <= m <= 12
  {
    mi % 12 + 1
  }

  function MonthIndex(y: int, m: int): int { 12 * y + m - 1 }

  function DaysInMonth(mi: int): (n: int)
    ensures 28 <= n <= 31
  {
    DaysInMonthOf(YearOfIndex(mi), MonthOfIndex(mi))
  }

  /** Month index of January 1970, the month whose first day is day 0. */
  const EpochMonth: int := 23640

  /**
   * Day number of the first day of the month with index `mi`: the lengths of
   * the months in between, accumulated forwards or backwards from day 0.
   */
  function MonthStart(mi: int): int
    decreases if mi < EpochMonth then EpochMonth - mi else mi - EpochMonth
  {
    if mi == EpochMonth then 0
    else if mi > EpochMonth then MonthStart(mi - 1) + DaysInMonth(mi - 1)
    else MonthStart(mi + 1) - DaysInMonth(mi)
  }

  /** Consecutive month starts differ by the length of the month in the reference table. */
  lemma MonthStartStep(mi: int)
    ensures MonthStart(mi + 1) == MonthStart(mi) + DaysInMonth(mi)
  {
    if mi < EpochMonth {
      assert MonthStart(mi) == MonthStart(mi + 1) - DaysInMonth(mi);
    } else {
      assert MonthStart(mi + 1) == MonthStart(mi) + DaysInMonth(mi);
    }
  }

  /** Month starts grow by at least 28 days per month. */
  lemma {:induction false} MonthStartMonotone(i: int, j: int)
    requires i <= j
    ensures MonthStart(i) + 28 * (j - i) <= MonthStart(j)
    decreases j - i
  {
    if i < j {
      MonthStartStep(i);
      MonthStartMonotone(i + 1, j);
    }
  }

  // ---------------------------------------------------------------------
  // From a day number back to its month

  /** Month index of the month that contains day `n`. */
  function MonthOf(n: int): (mi: int)
    ensures MonthStart(mi) <= n < MonthStart(mi + 1)
  {
    if n >= 0 then MonthForward(n, EpochMonth) else MonthBackward(n, EpochMonth - 1)
  }

  /** The month containing day `n`, searched forwards from a month that starts at or before it. */
  function MonthForward(n: int, mi: int): (r: int)
    requires MonthStart(mi) <= n
    ensures MonthStart(r) <= n < MonthStart(r + 1)
    decreases n - MonthStart(mi)
  {
    MonthStartStep(mi);
    if n < MonthStart(mi + 1) then mi else MonthForward(n, mi + 1)
  }

  /** The month containing day `n`, searched backwards from a month that ends after it. */
  function MonthBackward(n: int, mi: int): (r: int)
    requires n < MonthStart(mi + 1)
    ensures MonthStart(r) <= n < MonthStart(r + 1)
    decreases MonthStart(mi + 1) - n
  {
    MonthStartStep(mi);
    if MonthStart(mi) <= n then mi else MonthBackward(n, mi - 1)
  }

  /** The month containing a day is unique. */
  lemma MonthOfUnique(n: int, mi: int)
    requires MonthStart(mi) <= n < MonthStart(mi + 1)
    ensures MonthOf(n) == mi
  {
    var k := MonthOf(n);
    if k < mi {
      MonthStartMonotone(k + 1, mi);
    } else if mi < k {
      MonthStartMonotone(mi + 1, k);
    }
  }

  /** Day `n` lies in month `mi` exactly when it is one of that month's days. */
  lemma MonthOfIff(n: int, mi: int)
    ensures MonthOf(n) == mi <==> MonthStart(mi) <= n < MonthStart(mi) + DaysInMonth(mi)
  {
    MonthStartStep(mi);
    if MonthStart(mi) <= n < MonthStart(mi + 1) {
      MonthOfUnique(n, mi);
    }
  }

  // ---------------------------------------------------------------------
  // The closed forms of the proleptic Gregorian calendar

  /**
   * Days from 0000-03-01 to the first of March of the March-based year `y`
   * (the year whose February closes it, so the leap day is its last day).
   */
  function YearStart(y: int): int
  {
    365 * y + y / 4 - y / 100 + y / 400
  }

  /** Days from 0000-03-01 to the first of month `mp` (0 = March) of a March-based year. */
  function MonthOffset(mp: int): int
  {
    (153 * mp + 2) / 5
  }

  /** The day number of a month's first day by the closed form, counting years from March. */
  function MonthStartFormula(mi: int): int
  {
    var a := mi - 2;
    YearStart(a / 12) + MonthOffset(a % 12) - 719468
  }

  lemma DivSucc(x: int, k: int)
    requires k == 4 || k == 100 || k == 400
    ensures (x + 1) / k - x / k == if (x + 1) % k == 0 then 1 else 0
  {
    if k == 4 {
    } else if k == 100 {
    } else {
    }
  }

  /** A March-based year is one day longer exactly when the February that closes it is a leap February. */
  lemma YearLength(y: int)
    ensures YearStart(y + 1) - YearStart(y) == if IsLeapYear(y + 1) then 366 else 365
  {
    DivSucc(y, 4);
    DivSucc(y, 100);
    DivSucc(y, 400);
    if (y + 1) % 400 == 0 {
      var k := (y + 1) / 400;
      assert y + 1 == 100 * (4 * k);
      assert y + 1 == 4 * (100 * k);
    } else if (y + 1) % 100 == 0 {
      var k := (y + 1) / 100;
      assert y + 1 == 4 * (25 * k);
    }
  }

  /** The closed form steps by the reference month lengths too. */
  lemma FormulaStep(mi: int)
    ensures MonthStartFormula(mi + 1) == MonthStartFormula(mi) + DaysInMonth(mi)
  {
    var mp := (mi - 2) % 12;
    if mp == 11 {
      FormulaStepFebruary(mi);
    } else if mp == 10 {
      FormulaStepJanuary(mi);
    } else {
      FormulaStepMarchToDecember(mi);
    }
  }

  /** From March to December the closed form stays within one March-based year. */
  lemma FormulaStepMarchToDecember(mi: int)
    requires (mi - 2) % 12 < 10
    ensures MonthStartFormula(mi + 1) == MonthStartFormula(mi) + DaysInMonth(mi)
  {
    var a := mi - 2;
    var y, mp := a / 12, a % 12;
    assert a == 12 * y + mp;
    assert (a + 1) / 12 == y && (a + 1) % 12 == mp + 1;
    assert YearOfIndex(mi) == y && MonthOfIndex(mi) == mp + 3;
  }

  /** December to January stays within one March-based year as well. */
  lemma FormulaStepJanuary(mi: int)
    requires (mi - 2) % 12 == 10
    ensures MonthStartFormula(mi + 1) == MonthStartFormula(mi) + DaysInMonth(mi)
  {
    var a := mi - 2;
    var y := a / 12;
    assert a == 12 * y + 10;
    assert (a + 1) / 12 == y && (a + 1) % 12 == 11;
    assert YearOfIndex(mi) == y + 1 && MonthOfIndex(mi) == 1;
  }

  /** February closes a March-based year: the next month starts the following one. */
  lemma FormulaStepFebruary(mi: int)
    requires (mi - 2) % 12 == 11
    ensures MonthStartFormula(mi + 1) == MonthStartFormula(mi) + DaysInMonth(mi)
  {
    var a := mi - 2;
    var y := a / 12;
    assert a == 12 * y + 11;
    assert (a + 1) / 12 == y + 1 && (a + 1) % 12 == 0;
    assert YearOfIndex(mi) == y + 1 && MonthOfIndex(mi) == 2;
    YearLength(y);
  }

  /** The closed form puts the first of January 1970 on day 0. */
  lemma FormulaAtEpoch()
    ensures MonthStartFormula(EpochMonth) == 0
  {
    var a := EpochMonth - 2;
    assert a / 12 == 1969 && a % 12 == 10;
    assert YearStart(1969) == 719162;
    assert MonthOffset(10) == 306;
  }

  /** The accumulated month lengths agree with the closed form for every month. */
  lemma MonthStartIsFormula(mi: int)
    ensures MonthStart(mi) == MonthStartFormula(mi)
  {
    if mi >= EpochMonth {
      FormulaForward(mi - EpochMonth);
    } else {
      FormulaBackward(EpochMonth - mi);
    }
  }

  lemma {:induction false} FormulaForward(k: nat)
    ensures MonthStart(EpochMonth + k) == MonthStartFormula(EpochMonth + k)
  {
    if k == 0 {
      FormulaAtEpoch();
    } else {
      var mi := EpochMonth + k - 1;
      FormulaForward(k - 1);
      FormulaStep(mi);
      assert MonthStart(mi + 1) == MonthStart(mi) + DaysInMonth(mi);
    }
  }

  lemma {:induction false} FormulaBackward(k: nat)
    ensures MonthStart(EpochMonth - k) == MonthStartFormula(EpochMonth - k)
  {
    if k == 0 {
      FormulaAtEpoch();
    } else {
      var mi := EpochMonth - k;
      FormulaBackward(k - 1);
      FormulaStep(mi);
      assert MonthStart(mi) == MonthStart(mi + 1) - DaysInMonth(mi);
    }
  }

  /** Writing a March-based year as 400 * era + yoe splits off whole 146097-day eras. */
  lemma YearStartEra(era: int, yoe: int)
    requires 0 <= yoe < 400
    ensures YearStart(400 * era + yoe) == 146097 * era + 365 * yoe + yoe / 4 - yoe / 100
  {
    var y := 400 * era + yoe;
    assert y / 4 == 100 * era + yoe / 4;
    assert y / 100 == 4 * era + yoe / 100;
    assert y / 400 == era;
  }

  /** The parts of a day number, by eras, centuries, four-year blocks and years. */
  datatype DayParts = DayParts(era: int, c: int, q: int, yb: int, doy: int)

  function Decompose(n: int): DayParts
  {
    var z := n + 719468;
    var era := z / 146097;
    var doe := z % 146097;
    var c := if doe / 36524 < 3 then doe / 36524 else 3;
    var doc := doe - 36524 * c;
    var q := doc / 1461;
    var dob := doc % 1461;
    var yb := if dob / 365 < 3 then dob / 365 else 3;
    DayParts(era, c, q, yb, dob - 365 * yb)
  }

  /** The month containing day `n` by the closed form: eras, centuries, four-year blocks, years, then months from March. */
  function MonthOfFormula(n: int): int
  {
    var p := Decompose(n);
    12 * (400 * p.era + 100 * p.c + 4 * p.q + p.yb) + (5 * p.doy + 2) / 153 + 2
  }

  lemma DecomposeBounds(n: int)
    ensures var p := Decompose(n);
      && 0 <= p.c <= 3 && 0 <= p.q <= 24 && 0 <= p.yb <= 3 && 0 <= p.doy <= 365
      && n + 719468 == 146097 * p.era + 36524 * p.c + 1461 * p.q + 365 * p.yb + p.doy
      && (p.doy == 365 ==> p.yb == 3 && (p.q == 24 ==> p.c == 3))
  {
    var z := n + 719468;
    var doe := z % 146097;
    var c := if doe / 36524 < 3 then doe / 36524 else 3;
    var doc := doe - 36524 * c;
    assert 0 <= doc <= 36524;
    assert c < 3 ==> doc <= 36523;
  }

  /** The last day of a four-year block closes a leap year. */
  lemma LastDayIsLeap(era: int, c: int, q: int)
    requires 0 <= c <= 3 && 0 <= q <= 24 && (q == 24 ==> c == 3)
    ensures IsLeapYear(400 * era + 100 * c + 4 * q + 4)
  {
    var y := 400 * era + 100 * c + 4 * q + 4;
    assert y == 4 * (100 * era + 25 * c + q + 1);
    if q == 24 {
      assert y == 400 * (era + 1);
    } else {
      assert y == 100 * (4 * era + c) + 4 * (q + 1);
      assert 4 <= 4 * (q + 1) <= 96;
    }
  }

  /** The closed-form start of month `mp` (0 = March) of March-based year `400 * era + yoe`. */
  lemma FormulaMonthStart(era: int, yoe: int, mp: int)
    requires 0 <= yoe < 400 && 0 <= mp <= 11
    ensures MonthStartFormula(12 * (400 * era + yoe) + mp + 2)
         == 146097 * era + 365 * yoe + yoe / 4 - yoe / 100 + MonthOffset(mp) - 719468
  {
    var y := 400 * era + yoe;
    var mi := 12 * y + mp + 2;
    assert (mi - 2) / 12 == y && (mi - 2) % 12 == mp;
    YearStartEra(era, yoe);
  }

  /** The day of year picks the March-based month whose offsets bracket it. */
  lemma MonthOffsetBrackets(doy: int)
    requires 0 <= doy <= 365
    ensures var mp := (5 * doy + 2) / 153;
      0 <= mp <= 11 && MonthOffset(mp) <= doy && (mp < 11 ==> doy < MonthOffset(mp + 1))
  {
  }

  /** The closed-form month of day `n` starts `doy - MonthOffset(mp)` days before it. */
  lemma FormulaMonthOfDay(n: int)
    ensures var p := Decompose(n);
      var mp := (5 * p.doy + 2) / 153;
      && MonthOfFormula(n) == 12 * (400 * p.era + 100 * p.c + 4 * p.q + p.yb) + mp + 2
      && MonthStartFormula(MonthOfFormula(n)) == n - p.doy + MonthOffset(mp)
  {
    var p := Decompose(n);
    DecomposeBounds(n);
    var mp := (5 * p.doy + 2) / 153;
    MonthOffsetBrackets(p.doy);
    var yoe := 100 * p.c + 4 * p.q + p.yb;
    assert yoe / 4 == 25 * p.c + p.q && yoe / 100 == p.c;
    FormulaMonthStart(p.era, yoe, mp);
  }

  /** Day `n` comes before the closed-form start of the month after its closed-form month. */
  lemma FormulaNextMonth(n: int)
    ensures n < MonthStartFormula(MonthOfFormula(n) + 1)
  {
    var p := Decompose(n);
    DecomposeBounds(n);
    MonthOffsetBrackets(p.doy);
    FormulaMonthOfDay(n);
    if (5 * p.doy + 2) / 153 < 11 {
      NextMonthWithinYear(n);
    } else {
      NextMonthAfterFebruary(n);
    }
  }

  lemma NextMonthWithinYear(n: int)
    requires (5 * Decompose(n).doy + 2) / 153 < 11
    ensures n < MonthStartFormula(MonthOfFormula(n) + 1)
  {
    var p := Decompose(n);
    DecomposeBounds(n);
    var mp := (5 * p.doy + 2) / 153;
    MonthOffsetBrackets(p.doy);
    var yoe := 100 * p.c + 4 * p.q + p.yb;
    FormulaMonthOfDay(n);
    assert yoe / 4 == 25 * p.c + p.q && yoe / 100 == p.c;
    FormulaMonthStart(p.era, yoe, mp + 1);
  }

  /** After a February (the last month of a March-based year) comes the next year's March. */
  lemma NextMonthAfterFebruary(n: int)
    requires (5 * Decompose(n).doy + 2) / 153 >= 11
    ensures n < MonthStartFormula(MonthOfFormula(n) + 1)
  {
    var p := Decompose(n);
    DecomposeBounds(n);
    MonthOffsetBrackets(p.doy);
    FormulaMonthOfDay(n);
    var mi := MonthOfFormula(n);
    var y := 400 * p.era + 100 * p.c + 4 * p.q + p.yb + 1;
    if p.doy == 365 {
      LastDayIsLeap(p.era, p.c, p.q);
    }
    FebruaryHolds(mi, y, p.doy);
    FormulaStep(mi);
  }

  /** Day `doy` of a March-based year, from day 337 on, falls within the February that closes it. */
  lemma FebruaryHolds(mi: int, y: int, doy: int)
    requires mi == 12 * y + 1 && MonthOffset(11) <= doy <= 365 && (doy == 365 ==> IsLeapYear(y))
    ensures doy - MonthOffset(11) < DaysInMonth(mi)
  {
    assert YearOfIndex(mi) == y && MonthOfIndex(mi) == 2;
  }

  /** The closed-form month brackets the day by the closed-form month starts. */
  lemma FormulaBrackets(n: int)
    ensures MonthStartFormula(MonthOfFormula(n)) <= n < MonthStartFormula(MonthOfFormula(n) + 1)
  {
    DecomposeBounds(n);
    MonthOffsetBrackets(Decompose(n).doy);
    FormulaMonthOfDay(n);
    FormulaNextMonth(n);
  }

  /** The month search and the closed-form decomposition agree on every day. */
  lemma MonthOfIsFormula(n: int)
    ensures MonthOf(n) == MonthOfFormula(n)
  {
    var mi := MonthOfFormula(n);
    FormulaBrackets(n);
    MonthStartIsFormula(mi);
    MonthStartIsFormula(mi + 1);
    MonthOfUnique(n, mi);
  }

  // ---------------------------------------------------------------------
  // Civil dates (year, month, day)

  datatype Civil = Civil(year: int, month: int, day: int)

  predicate ValidCivil(c: Civil)
  {
    1 <= c.month <= 12 && 1 <= c.day <= DaysInMonthOf(c.year, c.month)
  }

  /** Foundation's `date(from: DateComponents)` for a valid date. */
  function FromCivil(c: Civil): int
    requires 1 <= c.month <= 12
  {
    MonthStart(MonthIndex(c.year, c.month)) + c.day - 1
  }

  /** The year, month and day components of a day number. */
  function ToCivil(n: int): Civil
  {
    var mi := MonthOf(n);
    Civil(YearOfIndex(mi), MonthOfIndex(mi), n - MonthStart(mi) + 1)
  }

  /** Every day number has valid components. */
  lemma ToCivilValid(n: int)
    ensures ValidCivil(ToCivil(n))
  {
    MonthStartStep(MonthOf(n));
  }

  lemma {:induction false} FromToCivil(n: int)
    ensures FromCivil(ToCivil(n)) == n
  {
    var mi := MonthOf(n);
    assert MonthIndex(YearOfIndex(mi), MonthOfIndex(mi)) == mi;
  }

  lemma {:induction false} ToFromCivil(c: Civil)
    requires ValidCivil(c)
    ensures ToCivil(FromCivil(c)) == c
  {
    var mi := MonthIndex(c.year, c.month);
    assert YearOfIndex(mi) == c.year && MonthOfIndex(mi) == c.month;
    CivilAt(FromCivil(c), mi, c.day);
  }

  /** Day `n`, the `d`-th day of the month with index `mi`, has that month's year and month and day `d`. */
  lemma CivilAt(n: int, mi: int, d: int)
    requires 1 <= d <= DaysInMonth(mi) && n == MonthStart(mi) + d - 1
    ensures MonthOf(n) == mi
    ensures ToCivil(n) == Civil(YearOfIndex(mi), MonthOfIndex(mi), d)
  {
    MonthStartStep(mi);
    MonthOfUnique(n, mi);
  }

  /** A day in the four weeks before month `mi` starts is a day of the previous month, counted from that month's end. */
  lemma DayOfPreviousMonth(mi: int, n: int)
    requires MonthStart(mi) - 28 <= n < MonthStart(mi)
    ensures MonthOf(n) == mi - 1
    ensures ToCivil(n).day == DaysInMonth(mi - 1) + n - MonthStart(mi) + 1
  {
    var p := mi - 1;
    MonthStartStep(p);
    MonthOfUnique(n, p);
  }

  /** A day in the four weeks after month `mi` ends is a day of the next month, counted from its start. */
  lemma DayOfNextMonth(mi: int, n: int)
    requires MonthStart(mi) + DaysInMonth(mi) <= n < MonthStart(mi) + DaysInMonth(mi) + 28
    ensures MonthOf(n) == mi + 1
    ensures ToCivil(n).day == n - MonthStart(mi) - DaysInMonth(mi) + 1
  {
    var q := mi + 1;
    MonthStartStep(mi);
    MonthStartStep(q);
    MonthOfUnique(n, q);
  }


  /** Day `d` of the month an instant falls in, as a civil date. */
  lemma CivilOfMonthDay(t: Instant, d: int)
    requires 1 <= d <= DaysInMonthAt(t)
    ensures ToCivil(MonthStart(MonthIndexOf(t)) + d - 1) == Civil(YearComponent(t), MonthComponent(t), d)
  {
    var mi := MonthIndexOf(t);
    Components(t);
    CivilAt(MonthStart(mi) + d - 1, mi, d);
  }

  /** Foundation's weekday component: 1 = Sunday ... 7 = Saturday (1970-01-01 was a Thursday). */
  function Weekday(n: int): (w: int)
    ensures 1 <= w <= 7
  {
    (n + 4) % 7 + 1
  }

  /** Days to step back from day `n` to reach the closest day, at or before it, with weekday `first`. */
  function DaysSinceWeekday(n: int, first: int): (k: int)
    requires 1 <= first <= 7
    ensures 0 <= k < 7 && Weekday(n - k) == first
  {
    var w := (n + 4) % 7;
    var k := (w + 1 - first + 7) % 7;
    assert n + 4 == 7 * ((n + 4) / 7) + w;
    assert w - k == first - 1 || w - k == first - 1 - 7;
    assert (n - k + 4) % 7 == first - 1;
    k
  }

  // ---------------------------------------------------------------------
  // Instants

  function DayOf(t: Instant): int { t / SecondsPerDay }

  function TimeOfDay(t: Instant): int { t % SecondsPerDay }

  function AtDay(n: int): (t: Instant)
    ensures DayOf(t) == n && TimeOfDay(t) == 0
  {
    n * SecondsPerDay
  }

  /** Foundation's `startOfDay(for:)`. */
  function StartOfDay(t: Instant): (r: Instant)
    ensures r <= t < r + SecondsPerDay
    ensures DayOf(r) == DayOf(t) && TimeOfDay(r) == 0
  {
    AtDay(DayOf(t))
  }

  /** Foundation's `isDate(_:inSameDayAs:)`. */
  predicate SameDay(a: Instant, b: Instant)
  {
    DayOf(a) == DayOf(b)
  }

  /** Month index of the month an instant falls in. */
  function MonthIndexOf(t: Instant): int
  {
    MonthOf(DayOf(t))
  }

  /** Foundation's `component(.year, from:)`. */
  function YearComponent(t: Instant): int { ToCivil(DayOf(t)).year }

  /** Foundation's `component(.month, from:)`. */
  function MonthComponent(t: Instant): int { ToCivil(DayOf(t)).month }

  /** The year and month components are those of the instant's month index. */
  lemma Components(t: Instant)
    ensures YearComponent(t) == YearOfIndex(MonthIndexOf(t))
    ensures MonthComponent(t) == MonthOfIndex(MonthIndexOf(t))
  {
  }

  /** Foundation's `component(.weekday, from:)`. */
  function WeekdayOf(t: Instant): int { Weekday(DayOf(t)) }

  /** Foundation's `isDate(_:equalTo:toGranularity: .month)`: same year and same month. */
  predicate SameMonth(a: Instant, b: Instant)
  {
    MonthIndexOf(a) == MonthIndexOf(b)
  }

  lemma SameMonthComponents(a: Instant, b: Instant)
    ensures SameMonth(a, b) <==> YearComponent(a) == YearComponent(b) && MonthComponent(a) == MonthComponent(b)
  {
    var i, j := MonthIndexOf(a), MonthIndexOf(b);
    Components(a);
    Components(b);
    assert i == 12 * YearOfIndex(i) + MonthOfIndex(i) - 1;
    assert j == 12 * YearOfIndex(j) + MonthOfIndex(j) - 1;
  }

  /** Foundation's `range(of: .day, in: .month, for:)` count. */
  function DaysInMonthAt(t: Instant): (n: int)
    ensures 28 <= n <= 31
  {
    DaysInMonth(MonthIndexOf(t))
  }

  /** Foundation's `date(byAdding: .day, value: k, to: t)`. */
  function AddDays(t: Instant, k: int): Instant
  {
    t + k * SecondsPerDay
  }

  lemma AddDaysDay(t: Instant, k: int)
    ensures DayOf(AddDays(t, k)) == DayOf(t) + k && TimeOfDay(AddDays(t, k)) == TimeOfDay(t)
  {
  }

  /**
   * Foundation's `date(byAdding: .month, value: k, to: t)`: the same day of the
   * month `k` months on, clamped to that month's last day, at the same time of day.
   */
  function AddMonths(t: Instant, k: int): Instant
  {
    AtDay(MonthStart(MonthIndexOf(t) + k) + ClampedDayOffset(t, k)) + TimeOfDay(t)
  }

  /** The day-of-month (0-based) that `AddMonths` lands on. */
  function ClampedDayOffset(t: Instant, k: int): (dom: int)
    ensures 0 <= dom < DaysInMonth(MonthIndexOf(t) + k)
  {
    var n := DayOf(t);
    var mi := MonthOf(n);
    if n - MonthStart(mi) < DaysInMonth(mi + k) then n - MonthStart(mi) else DaysInMonth(mi + k) - 1
  }

  lemma {:induction false} AddMonthsDay(t: Instant, k: int)
    ensures DayOf(AddMonths(t, k)) == MonthStart(MonthIndexOf(t) + k) + ClampedDayOffset(t, k)
    ensures TimeOfDay(AddMonths(t, k)) == TimeOfDay(t)
  {
    var tod := TimeOfDay(t);
    assert 0 <= tod < SecondsPerDay;
  }

  /** Adding k months lands in the month k months on, on the same day of the month when that month has it, else on its last day. */
  lemma {:induction false} AddMonthsMonth(t: Instant, k: int)
    ensures MonthIndexOf(AddMonths(t, k)) == MonthIndexOf(t) + k
    ensures TimeOfDay(AddMonths(t, k)) == TimeOfDay(t)
    ensures ToCivil(DayOf(AddMonths(t, k))).day
      == if ToCivil(DayOf(t)).day <= DaysInMonth(MonthIndexOf(t) + k) then ToCivil(DayOf(t)).day
         else DaysInMonth(MonthIndexOf(t) + k)
  {
    var target := MonthIndexOf(t) + k;
    AddMonthsDay(t, k);
    MonthStartStep(target);
    MonthOfUnique(DayOf(AddMonths(t, k)), target);
  }

  /** 1970-01-01, day 0, was a Thursday (weekday 5). */
  lemma EpochWeekday()
    ensures Weekday(FromCivil(Civil(1970, 1, 1))) == 5
  {
  }
}
