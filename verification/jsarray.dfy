/** The JavaScript array operations the picker relies on, over sequences:
    `indexOf` (strict equality) and the two-argument form of `splice`
    (start and delete count, no items inserted) as ECMAScript 2015 section
    22.1.3.25 (Array.prototype.splice) defines it, including a negative
    start counting from the end and an `undefined` delete count. */
module JsArray {

  /** `s.indexOf(x)`: the first position holding `x`, or -1. */
  function IndexOf<T(==)>(s: seq<T>, x: T): (i: int)
    ensures -1 <= i < |s|
    ensures i == -1 <==> x !in s
    ensures 0 <= i ==> s[i] == x && x !in s[..i]
  {
    if s == [] then -1
    else if s[0] == x then 0
    else
      var j := IndexOf(s[1..], x);
      assert s[1..][..j + 1] == s[..j + 2][1..] by {
        if j >= 0 { assert s[1..][..j + 1] == s[1..j + 2]; }
      }
      if j == -1 then -1 else j + 1
  }

  /** The position `splice` starts at: a negative start counts from the
      end, and both directions are clamped into the array. */
  function SpliceStart(len: nat, start: int): (a: nat)
    ensures a <= len
    ensures 0 <= start <= len ==> a == start
    ensures start < 0 && len + start >= 0 ==> a == len + start
  {
    if start < 0 then (if len + start < 0 then 0 else len + start)
    else if start > len then len
    else start
  }

  /** The array left by `s.splice(start, deleteCount)`. An `undefined`
      delete count converts to 0, so callers pass 0 for it. */
  function Splice<T>(s: seq<T>, start: int, deleteCount: int): (r: seq<T>)
    ensures 0 <= start < |s| && deleteCount == 1 ==> r == s[..start] + s[start + 1..]
    ensures start == -1 && deleteCount == 1 && s != [] ==> r == s[..|s| - 1]
    ensures start == -1 && s == [] ==> r == []
    ensures start == 0 && deleteCount >= |s| ==> r == []
    ensures deleteCount <= 0 ==> r == s
    ensures |s| - |r| == (if deleteCount <= 0 then 0 else if deleteCount < |s| - SpliceStart(|s|, start) then deleteCount else |s| - SpliceStart(|s|, start))
  {
    var a := SpliceStart(|s|, start);
    var d := if deleteCount < 0 then 0 else if deleteCount > |s| - a then |s| - a else deleteCount;
    assert deleteCount <= 0 ==> s[..a] + s[a + d..] == s;
    s[..a] + s[a + d..]
  }
}
