/** Subsequences, stated by the positions they are taken from. */
module Subsequences {

  /**
   * `idx` lists strictly increasing positions of `s`, and `r` is what stands
   * at those positions, in that order.
   */
  ghost predicate Picks<T>(r: seq<T>, s: seq<T>, idx: seq<nat>) {
    && |idx| == |r|
    && (forall k :: 0 <= k < |idx| ==> idx[k] < |s| && r[k] == s[idx[k]])
    && (forall k, l :: 0 <= k < l < |idx| ==> idx[k] < idx[l])
  }

  /** `r` is `s` with some elements left out and the rest in their original order. */
  ghost predicate IsSubsequence<T>(r: seq<T>, s: seq<T>) {
    exists idx :: Picks(r, s, idx)
  }

  /** The first `n` picked elements come from the first `n` picked positions. */
  lemma PicksPrefix<T>(r: seq<T>, s: seq<T>, idx: seq<nat>, n: nat)
    requires Picks(r, s, idx) && n <= |r|
    ensures Picks(r[..n], s, idx[..n])
  {
  }
}
