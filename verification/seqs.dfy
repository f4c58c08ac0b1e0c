/** Selection of the rows a `where` clause keeps. */
module Seqs {

  /** The elements of `s` that satisfy `p`, in their original order. */
  function Filter<T>(s: seq<T>, p: T -> bool): (r: seq<T>)
    ensures forall k :: 0 <= k < |r| ==> r[k] in s && p(r[k])
    ensures forall k :: 0 <= k < |s| && p(s[k]) ==> s[k] in r
    ensures |r| <= |s|
  {
    if |s| == 0 then []
    else
      var rest := Filter(s[1..], p);
      assert forall k :: 1 <= k < |s| ==> s[k] == s[1..][k - 1];
      if p(s[0]) then [s[0]] + rest else rest
  }

  /** Filtering by a condition no element meets gives the empty sequence, and vice versa. */
  lemma {:induction false} FilterEmptyIff<T>(s: seq<T>, p: T -> bool)
    ensures |Filter(s, p)| == 0 <==> forall k :: 0 <= k < |s| ==> !p(s[k])
  {
    if |s| > 0 {
      FilterEmptyIff(s[1..], p);
      assert forall k :: 1 <= k < |s| ==> s[k] == s[1..][k - 1];
    }
  }
}
