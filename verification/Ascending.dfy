/** Ascending lists of track numbers: the order in which every scan loop of the disk visits tracks. */
module Ascending {

  /** The elements of `s` in `[lo, hi)`, in ascending order. */
  function Between(s: set<nat>, lo: nat, hi: nat): (r: seq<nat>)
    decreases hi
  {
    if hi <= lo then []
    else Between(s, lo, hi - 1) + (if hi - 1 in s then [hi - 1] else [])
  }

  predicate StrictlyAscending(r: seq<nat>) {
    forall i, j :: 0 <= i < j < |r| ==> r[i] < r[j]
  }

  ghost function Elements(r: seq<nat>): (s: set<nat>) {
    set t | t in r
  }

  lemma {:induction false} BetweenMembers(s: set<nat>, lo: nat, hi: nat)
    ensures forall t :: t in Between(s, lo, hi) <==> lo <= t < hi && t in s
    ensures StrictlyAscending(Between(s, lo, hi))
    decreases hi
  {
    if hi > lo {
      BetweenMembers(s, lo, hi - 1);
      var init := Between(s, lo, hi - 1);
      forall i | 0 <= i < |init| ensures init[i] < hi - 1 { assert init[i] in init; }
    }
  }

  lemma {:induction false} BetweenAgree(s: set<nat>, s': set<nat>, lo: nat, hi: nat)
    requires forall t: nat :: lo <= t < hi ==> (t in s <==> t in s')
    ensures Between(s, lo, hi) == Between(s', lo, hi)
    decreases hi
  {
    if hi > lo { BetweenAgree(s, s', lo, hi - 1); }
  }

  lemma {:induction false} BetweenSplit(s: set<nat>, lo: nat, mid: nat, hi: nat)
    requires lo <= mid <= hi
    ensures Between(s, lo, hi) == Between(s, lo, mid) + Between(s, mid, hi)
    decreases hi
  {
    if mid < hi { BetweenSplit(s, lo, mid, hi - 1); }
  }

  lemma {:induction false} BetweenNone(s: set<nat>, lo: nat, hi: nat)
    requires forall t: nat :: lo <= t < hi ==> t !in s
    ensures Between(s, lo, hi) == []
    decreases hi
  {
    if lo < hi { BetweenNone(s, lo, hi - 1); }
  }

  lemma {:induction false} BetweenEmptyRange(s: set<nat>, lo: nat, hi: nat)
    requires hi <= lo
    ensures |Between(s, lo, hi)| == 0
  {
  }

  /** Two scans agree when the larger range adds no element. */
  lemma {:induction false} BetweenNarrow(s: set<nat>, lo: nat, lo': nat, hi': nat, hi: nat)
    requires lo <= lo' <= hi' <= hi
    requires forall t: nat :: lo <= t < lo' ==> t !in s
    requires forall t: nat :: hi' <= t < hi ==> t !in s
    ensures Between(s, lo, hi) == Between(s, lo', hi')
  {
    BetweenSplit(s, lo, lo', hi);
    BetweenSplit(s, lo', hi', hi);
    BetweenNone(s, lo, lo');
    BetweenNone(s, hi', hi);
  }

  /** A scan over a range that covers `s` finds each element once. */
  lemma {:induction false} BetweenCardinality(s: set<nat>, lo: nat, hi: nat)
    requires forall t :: t in s ==> lo <= t < hi
    ensures |Between(s, lo, hi)| == |s|
    decreases hi
  {
    if hi <= lo {
      assert s == {};
    } else {
      var rest := s - {hi - 1};
      BetweenCardinality(rest, lo, hi - 1);
      BetweenAgree(s, rest, lo, hi - 1);
      if hi - 1 in s { assert s == rest + {hi - 1}; } else { assert s == rest; }
    }
  }

  /** A scan of a range entirely inside `s` is the whole range. */
  lemma {:induction false} BetweenFull(s: set<nat>, lo: nat, hi: nat)
    requires lo <= hi
    requires forall t: nat :: lo <= t < hi ==> t in s
    ensures |Between(s, lo, hi)| == hi - lo
    ensures forall i :: 0 <= i < hi - lo ==> Between(s, lo, hi)[i] == lo + i
    decreases hi
  {
    if hi > lo { BetweenFull(s, lo, hi - 1); }
  }

  predicate NoDuplicates(r: seq<nat>) {
    forall i, j :: 0 <= i < j < |r| ==> r[i] != r[j]
  }

  /** At most `n` distinct numbers lie below `n`. */
  lemma {:induction false} DistinctBelow(r: seq<nat>, n: nat)
    requires NoDuplicates(r)
    requires forall i :: 0 <= i < |r| ==> r[i] < n
    ensures |r| <= n
    decreases n
  {
    if r == [] {
    } else if k :| 0 <= k < |r| && r[k] == n - 1 {
      var rest := r[..k] + r[k + 1..];
      forall i | 0 <= i < |rest| ensures rest[i] < n - 1 {
        var j := if i < k then i else i + 1;
        assert rest[i] == r[j] && r[j] != r[k];
      }
      DistinctBelow(rest, n - 1);
    } else {
      assert r[0] < n;
      DistinctBelow(r, n - 1);
    }
  }
}
