/**
 * The handful of JavaScript built-ins the stores rely on (`findIndex`,
 * `reduce` with `Math.max`, `splice`, `slice`) and the truthiness tests the
 * route handlers use, stated as pure functions over sequences.
 */
module Js {

  /** A value that may be `undefined`. */
  datatype Option<+T> = None | Some(value: T)

  /** Truthiness of a string field: `undefined` and `""` are falsy. */
  predicate TruthyString(v: Option<string>) {
    v.Some? && v.value != ""
  }

  /** Truthiness of a numeric field: `undefined` and `0` are falsy. */
  predicate TruthyNumber(v: Option<int>) {
    v.Some? && v.value != 0
  }

  /** `v || fallback` on a string field. */
  function OrString(v: Option<string>, fallback: string): string {
    if TruthyString(v) then v.value else fallback
  }

  /** `v || fallback` on a numeric field. */
  function OrNumber(v: Option<int>, fallback: int): int {
    if TruthyNumber(v) then v.value else fallback
  }

  /** `v !== undefined ? v : fallback` */
  function DefinedOr<T>(v: Option<T>, fallback: T): T {
    if v.Some? then v.value else fallback
  }

  /** `s.findIndex(matches)`: the least index whose element matches, or -1 when none does. */
  function FindIndex<T>(s: seq<T>, matches: T -> bool): (i: int)
    ensures -1 <= i < |s|
    ensures 0 <= i ==> matches(s[i])
    ensures forall j :: 0 <= j < |s| && (i == -1 || j < i) ==> !matches(s[j])
  {
    if |s| == 0 then -1
    else if matches(s[0]) then 0
    else
      var k := FindIndex(s[1..], matches);
      if k == -1 then -1 else k + 1
  }

  /**
   * `s.reduce((m, x) => Math.max(m, key(x)), 0)`: the largest key, floored at 0.
   * Folded from the left, as `reduce` does.
   */
  function MaxKey<T>(s: seq<T>, key: T -> int): (m: nat)
    ensures forall j :: 0 <= j < |s| ==> key(s[j]) <= m
    ensures m == 0 || exists j :: 0 <= j < |s| && key(s[j]) == m
  {
    if |s| == 0 then 0
    else
      var m := MaxKey(s[..|s| - 1], key);
      var last := key(s[|s| - 1]);
      if m < last then last else m
  }

  /** `s.splice(i, 1)` for an index inside `s`: the elements before and after `i`, in order. */
  function RemoveAt<T>(s: seq<T>, i: nat): (r: seq<T>)
    requires i < |s|
    ensures |r| == |s| - 1
    ensures forall j :: 0 <= j < i ==> r[j] == s[j]
    ensures forall j :: i <= j < |r| ==> r[j] == s[j + 1]
    ensures multiset(r) + multiset{s[i]} == multiset(s)
  {
    assert s == s[..i] + [s[i]] + s[i + 1..];
    s[..i] + s[i + 1..]
  }

  /** `s.slice(0, end)`: a prefix of `s`; a negative `end` counts back from the end. */
  function SliceTo<T>(s: seq<T>, end: int): (r: seq<T>)
    ensures r <= s
    ensures 0 <= end ==> |r| == if end < |s| then end else |s|
    ensures end < 0 ==> |r| == if |s| + end < 0 then 0 else |s| + end
  {
    var k := if end < 0 then (if |s| + end < 0 then 0 else |s| + end)
             else (if end < |s| then end else |s|);
    s[..k]
  }
}
