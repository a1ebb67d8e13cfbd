/** The index of the first element that satisfies a condition, or the length. */
module Search {
  function First<T>(s: seq<T>, p: T -> bool, from: nat := 0): (i: nat)
    requires from <= |s|
    ensures from <= i <= |s|
    ensures i < |s| ==> p(s[i])
    ensures forall k :: from <= k < i ==> !p(s[k])
    decreases |s| - from
  {
    if from == |s| || p(s[from]) then from else First(s, p, from + 1)
  }
}
