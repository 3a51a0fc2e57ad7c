/**
 The two JavaScript array primitives whose exact semantics decide where the
 plugin inserts a statement: `findIndex`, which answers -1 when nothing
 matches, and `splice(start, 0, item)`, which counts a negative `start`
 back from the end of the array (ECMAScript, section 23.1.3.31,
 Array.prototype.splice).
 */
module JsArray {

  /** `Array.prototype.findIndex(p)`. */
  function FindIndex<T>(s: seq<T>, p: T -> bool): (r: int)
    ensures -1 <= r < |s|
    ensures r == -1 <==> forall i :: 0 <= i < |s| ==> !p(s[i])
    ensures r >= 0 ==> p(s[r]) && forall i :: 0 <= i < r ==> !p(s[i])
  {
    if s == [] then -1
    else if p(s[0]) then 0
    else
      var k := FindIndex(s[1..], p);
      assert forall i :: 1 <= i < |s| ==> s[i] == s[1..][i - 1];
      if k == -1 then -1 else k + 1
  }

  /** The index at which `splice(start, 0, item)` places `item`. */
  function SpliceStart(len: nat, start: int): (k: nat)
    ensures k <= len
  {
    if start < 0 then (if len + start < 0 then 0 else len + start)
    else if start <= len then start else len
  }

  /** `s.splice(start, 0, x)`: the array after the call. */
  function SpliceInsert<T>(s: seq<T>, start: int, x: T): (r: seq<T>)
  {
    var k := SpliceStart(|s|, start);
    s[..k] + [x] + s[k..]
  }

  /** Splicing one element in grows the array by exactly one, puts `x` at
      the computed start, and leaves every other element in its order. */
  lemma SpliceInsertShape<T>(s: seq<T>, start: int, x: T)
    ensures var k := SpliceStart(|s|, start);
            var r := SpliceInsert(s, start, x);
            |r| == |s| + 1 && r[k] == x && r[..k] == s[..k] && r[k + 1..] == s[k..]
  {
    var k := SpliceStart(|s|, start);
    var r := SpliceInsert(s, start, x);
    assert r[..k] == s[..k];
    assert r[k + 1..] == s[k..];
  }
}
