/** The bounds-checked subscript `subscript(safe:)` (Sources/Internal/Extensions/Collection+Extension.swift). */
module CollectionExt {
  import opened Wrappers

  /** `self[safe: i]` on an array: the element when `i` is a valid index, otherwise `nil`; it never traps. */
  function SafeGet<T>(s: seq<T>, i: int): (r: Option<T>)
    ensures r.Some? <==> 0 <= i < |s|
    ensures r.Some? ==> r.value == s[i]
  {
    if 0 <= i < |s| then Some(s[i]) else None
  }
}
