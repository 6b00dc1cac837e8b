/**
 * The weekday header's symbol rotation
 * (Sources/Internal/Views/Headers/TSCalendarWeekdayHeaderView.swift).
 */
module WeekdayHeader {
  import opened Enums

  lemma ModOnce(x: int, n: int)
    requires 0 < n && 0 <= x < 2 * n
    ensures x % n == if x < n then x else x - n
  {
    if x >= n {
      assert x - n == x % n by {
        assert x == n + (x - n) && 0 <= x - n < n;
      }
    }
  }

  /**
   * `symbols[offset...] + symbols[..<offset]`. Slicing past the end traps in
   * Swift, so the offset must not exceed the number of symbols.
   */
  function Rotate<T>(symbols: seq<T>, offset: nat): (out: seq<T>)
    requires offset <= |symbols|
    ensures |out| == |symbols|
    ensures forall k :: 0 <= k < |out| ==> out[k] == symbols[(k + offset) % |symbols|]
    ensures multiset(out) == multiset(symbols)
    ensures offset < |symbols| ==> out[0] == symbols[offset]
  {
    var out := symbols[offset..] + symbols[..offset];
    assert symbols == symbols[..offset] + symbols[offset..];
    forall k | 0 <= k < |out| ensures out[k] == symbols[(k + offset) % |symbols|] {
      ModOnce(k + offset, |symbols|);
    }
    out
  }

  /** `getWeekdaySymbols()`: the appearance's symbols starting at the configured first weekday. */
  function WeekdaySymbols(symbols: seq<string>, startWeekDay: StartWeekDay): (out: seq<string>)
    requires startWeekDay.RawValue() <= |symbols|
    ensures |out| == |symbols|
    ensures forall k :: 0 <= k < |out| ==>
      out[k] == symbols[(k + startWeekDay.RawValue()) % |symbols|]
    ensures multiset(out) == multiset(symbols)
    ensures startWeekDay.RawValue() < |symbols| ==> out[0] == symbols[startWeekDay.RawValue()]
  {
    Rotate(symbols, startWeekDay.RawValue())
  }

  /** Starting the week on Sunday shows the symbols unchanged. */
  lemma SundayKeepsOrder(symbols: seq<string>)
    ensures WeekdaySymbols(symbols, Sunday) == symbols
  {
    var out := WeekdaySymbols(symbols, Sunday);
    forall k | 0 <= k < |out| ensures out[k] == symbols[k] {
      assert (k + 0) % |symbols| == k;
    }
  }
}
