/**
 * Sequence helpers: `Array.prototype.filter` and `slice(0, n)`, with the
 * facts about them that the list, the ingestion filter and the finder rely on.
 */
module Seqs {

  /** The elements of `s` that satisfy `p`, in their original order. */
  function Filter<T>(s: seq<T>, p: T -> bool): (r: seq<T>)
    ensures |r| <= |s|
    ensures forall i :: 0 <= i < |r| ==> p(r[i])
  {
    if s == [] then []
    else if p(s[|s| - 1]) then Filter(s[..|s| - 1], p) + [s[|s| - 1]]
    else Filter(s[..|s| - 1], p)
  }

  /** `idx` is strictly increasing and indexes into a sequence of length `n`. */
  ghost predicate IncreasingIndices(idx: seq<nat>, n: nat) {
    (forall j :: 0 <= j < |idx| ==> idx[j] < n) &&
    (forall j, k :: 0 <= j < k < |idx| ==> idx[j] < idx[k])
  }

  /**
   * `Filter(s, p)` is the order-preserving subsequence of `s` made of exactly
   * the elements that satisfy `p`: the positions it takes from `s` increase,
   * and a position of `s` is taken iff its element satisfies `p`.
   */
  ghost predicate FilterIndexed<T>(s: seq<T>, p: T -> bool, idx: seq<nat>) {
    |idx| == |Filter(s, p)| &&
    IncreasingIndices(idx, |s|) &&
    (forall j :: 0 <= j < |idx| ==> Filter(s, p)[j] == s[idx[j]]) &&
    (forall i :: 0 <= i < |s| ==> (p(s[i]) <==> i in idx))
  }

  lemma {:induction false} FilterIndices<T>(s: seq<T>, p: T -> bool) returns (idx: seq<nat>)
    ensures FilterIndexed(s, p, idx)
  {
    if s == [] {
      idx := [];
    } else {
      var n := |s| - 1;
      var front := FilterIndices(s[..n], p);
      assert forall i :: 0 <= i < n ==> s[..n][i] == s[i];
      if p(s[n]) {
        idx := front + [n];
      } else {
        idx := front;
      }
    }
  }

  /** Filtering keeps everything when every element passes. */
  lemma {:induction false} FilterAll<T>(s: seq<T>, p: T -> bool)
    requires forall i :: 0 <= i < |s| ==> p(s[i])
    ensures Filter(s, p) == s
  {
    if s != [] {
      FilterAll(s[..|s| - 1], p);
      assert s[..|s| - 1] + [s[|s| - 1]] == s;
    }
  }

  /** Filtering keeps nothing when no element passes. */
  lemma {:induction false} FilterNone<T>(s: seq<T>, p: T -> bool)
    requires forall i :: 0 <= i < |s| ==> !p(s[i])
    ensures Filter(s, p) == []
  {
    if s != [] {
      FilterNone(s[..|s| - 1], p);
    }
  }

  /** How many elements of `s` satisfy `p` (a counter bumped in a `forEach`). */
  function Count<T>(s: seq<T>, p: T -> bool): (n: nat)
    ensures n <= |s|
  {
    if s == [] then 0 else Count(s[..|s| - 1], p) + (if p(s[|s| - 1]) then 1 else 0)
  }

  /** The positions of `s` whose element satisfies `p`. */
  ghost function Positions<T>(s: seq<T>, p: T -> bool): set<nat> {
    set i: nat | i < |s| && p(s[i])
  }

  /** `Count` counts each satisfying position exactly once. */
  lemma {:induction false} CountIsCardinality<T>(s: seq<T>, p: T -> bool)
    ensures Count(s, p) == |Positions(s, p)|
  {
    if s != [] {
      var n := |s| - 1;
      CountIsCardinality(s[..n], p);
      var front := Positions(s[..n], p);
      assert n !in front;
      forall i: nat | i < n
        ensures (i in Positions(s, p)) == (i in front)
      {
        assert s[..n][i] == s[i];
      }
      if p(s[n]) {
        assert Positions(s, p) == front + {n};
      } else {
        assert Positions(s, p) == front;
      }
    }
  }

  /** A weaker test counts at least as many elements. */
  lemma {:induction false} CountMonotone<T>(s: seq<T>, p: T -> bool, q: T -> bool)
    requires forall i :: 0 <= i < |s| && p(s[i]) ==> q(s[i])
    ensures Count(s, p) <= Count(s, q)
  {
    if s != [] {
      var n := |s| - 1;
      assert forall i :: 0 <= i < n ==> s[..n][i] == s[i];
      CountMonotone(s[..n], p, q);
    }
  }

  /** The count of a prefix grows by one exactly when the next element passes. */
  lemma CountStep<T>(s: seq<T>, k: nat, p: T -> bool)
    requires k < |s|
    ensures Count(s[..k + 1], p) == Count(s[..k], p) + (if p(s[k]) then 1 else 0)
  {
    assert s[..k + 1][..k] == s[..k];
  }

  /** `rows.slice(0, n)`: the first `min(n, |s|)` elements. */
  function Take<T>(s: seq<T>, n: nat): (r: seq<T>)
    ensures |r| == if |s| < n then |s| else n
    ensures r <= s
  {
    if |s| <= n then s else s[..n]
  }
}
