/**
 * Python's list slicing `s[i:j]` on integer bounds: a negative bound counts
 * from the end, and both bounds are clamped to `0..len(s)`; an empty slice
 * results when the start is not before the end.
 */
module PySeq {

  /** The position a Python slice bound `i` stands for in a list of length `n`. */
  function SliceBound(i: int, n: nat): (k: nat)
    ensures k <= n
    ensures 0 <= i <= n ==> k == i
    ensures i > n ==> k == n
    ensures i < 0 ==> k == if i + n < 0 then 0 else i + n
  {
    var j := if i < 0 then i + n else i;
    if j < 0 then 0 else if j > n then n else j
  }

  /** `s[i:j]` */
  function Slice<T>(s: seq<T>, i: int, j: int): (r: seq<T>)
    ensures |r| <= |s|
    ensures 0 <= i <= j <= |s| ==> r == s[i..j]
    ensures 0 <= i && |s| <= j ==> r == SliceFrom(s, i)
    ensures j <= i && 0 <= j ==> r == []
    ensures forall k :: 0 <= k < |r| ==> SliceBound(i, |s|) + k < |s| && r[k] == s[SliceBound(i, |s|) + k]
  {
    var lo := SliceBound(i, |s|);
    var hi := SliceBound(j, |s|);
    if lo < hi then s[lo..hi] else []
  }

  /** `s[i:]` */
  function SliceFrom<T>(s: seq<T>, i: int): (r: seq<T>)
    ensures r == s[SliceBound(i, |s|)..]
  {
    s[SliceBound(i, |s|)..]
  }
}
