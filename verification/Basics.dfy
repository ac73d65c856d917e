/** Small functions that several models share. */
module Basics {
  function Count(v: bool): nat { if v then 1 else 0 }

  /** The position of the first `c` at or after `from`, or the length. */
  function Find(s: string, c: char, from: nat): (k: nat)
    requires from <= |s|
    ensures from <= k <= |s| && (k < |s| ==> s[k] == c)
    ensures forall i :: from <= i < k ==> s[i] != c
    decreases |s| - from
  {
    if from == |s| || s[from] == c then from else Find(s, c, from + 1)
  }
}
