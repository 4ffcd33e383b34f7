/**
 * Models of the few JavaScript built-ins the three handlers rely on:
 * `undefined` as an optional value, element access that yields `undefined`
 * out of range, `Array.prototype.slice` / `String.prototype.slice` with their
 * clamping of negative and out-of-range indices, and `Math.min`, `Math.max`,
 * `Math.abs` on integers.
 */
module Js {

  /** A JavaScript value that may be `undefined`. */
  datatype Option<+T> = None | Some(value: T)

  function Min(a: int, b: int): int { if a <= b then a else b }

  function Max(a: int, b: int): int { if a <= b then b else a }

  function Abs(a: int): int { if a < 0 then -a else a }

  /** `s[i]`: the element at index i, or `undefined` when i is out of range. */
  function At<T>(s: seq<T>, i: int): (r: Option<T>)
    ensures r.Some? <==> 0 <= i < |s|
    ensures r.Some? ==> r.value == s[i]
  {
    if 0 <= i < |s| then Some(s[i]) else None
  }

  /** How `slice` turns an index into a position: a negative index counts from the end, and the result is clamped to [0, len]. */
  function Clamp(i: int, len: nat): (r: nat)
    ensures r <= len
  {
    if i < 0 then Max(len + i, 0) else Min(i, len)
  }

  /**
   * `s.slice(begin, end)`; the one-argument form `s.slice(begin)` is
   * `Slice(s, begin, |s|)`. An empty range gives the empty sequence.
   */
  function Slice<T>(s: seq<T>, begin: int, end: int): (r: seq<T>)
    ensures |r| <= |s|
    ensures 0 <= begin <= end <= |s| ==> r == s[begin..end]
    ensures 0 <= begin <= |s| <= end ==> r == s[begin..]
    ensures 0 <= end <= begin || |s| <= begin ==> r == []
  {
    var from := Clamp(begin, |s|);
    var to := Clamp(end, |s|);
    if from < to then s[from..to] else []
  }
}
