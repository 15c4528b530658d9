/** Batch tables: the per-request lists of tracks that are sorted, planned and charged (src/batch.c). */
module Batch {
  import opened Ascending

  datatype Entry = Entry(pba: nat, isVirtual: bool)

  function Marked(ts: seq<nat>, isVirtual: bool): (m: seq<Entry>) {
    seq(|ts|, i requires 0 <= i < |ts| => Entry(ts[i], isVirtual))
  }

  /** Entries for tracks the request itself writes. */
  function Physical(ts: seq<nat>): seq<Entry> { Marked(ts, false) }

  /** Entries for tracks that must be re-read and rewritten around the request. */
  function Virtual(ts: seq<nat>): seq<Entry> { Marked(ts, true) }

  lemma {:induction false} VirtualConcat(a: seq<nat>, b: seq<nat>)
    ensures Virtual(a + b) == Virtual(a) + Virtual(b)
  {
  }

  lemma {:induction false} AppendNothing(a: seq<Entry>)
    ensures a + [] == a
  {
  }

  lemma {:induction false} AppendTwice(a: seq<Entry>, b: seq<Entry>, c: seq<Entry>)
    ensures (a + b) + c == a + (b + c)
  {
  }

  /** One turn of a scan loop. */
  lemma {:induction false} ScanStep(s: set<nat>, lo: nat, hi: nat)
    requires lo <= hi
    ensures |Between(s, lo, lo)| == |Physical(Between(s, lo, lo))| == 0
    ensures hi in s ==> Physical(Between(s, lo, hi + 1)) == Physical(Between(s, lo, hi)) + [Entry(hi, false)]
    ensures hi !in s ==> Physical(Between(s, lo, hi + 1)) == Physical(Between(s, lo, hi))
  {
  }

  predicate SortedByPba(m: seq<Entry>) {
    forall i, j :: 0 <= i < j < |m| ==> m[i].pba <= m[j].pba
  }

  function InsertByPba(e: Entry, m: seq<Entry>): (r: seq<Entry>)
    ensures |r| == |m| + 1
    ensures forall i :: 0 <= i < |r| ==> r[i] == e || r[i] in m
    ensures SortedByPba(m) ==> SortedByPba(r)
  {
    if m == [] || e.pba <= m[0].pba then [e] + m
    else [m[0]] + InsertByPba(e, m[1..])
  }

  lemma {:induction false} InsertKeepsContents(e: Entry, m: seq<Entry>)
    ensures multiset(InsertByPba(e, m)) == multiset(m) + multiset{e}
  {
    if m == [] || e.pba <= m[0].pba {
    } else {
      assert m == [m[0]] + m[1..];
      InsertKeepsContents(e, m[1..]);
    }
  }

  /** The contract of qsort with batch_cmp. */
  function SortByPba(m: seq<Entry>): (r: seq<Entry>)
    ensures multiset(r) == multiset(m)
    ensures SortedByPba(r)
    ensures |r| == |m|
  {
    if |m| == 0 then []
    else
      assert m == [m[0]] + m[1..];
      InsertKeepsContents(m[0], SortByPba(m[1..]));
      InsertByPba(m[0], SortByPba(m[1..]))
  }

  /** A table filled in ascending order is left as it is. */
  lemma {:induction false} SortOfSorted(m: seq<Entry>)
    requires SortedByPba(m)
    ensures SortByPba(m) == m
  {
    if m != [] {
      SortOfSorted(m[1..]);
      assert m == [m[0]] + m[1..];
    }
  }

  /** The physical entries among the first `k`. Lists are folded by index, as the loops over them run. */
  function CountTo(m: seq<Entry>, k: nat): (c: nat)
    requires k <= |m|
    ensures c <= k
  {
    if k == 0 then 0 else CountTo(m, k - 1) + if m[k - 1].isVirtual then 0 else 1
  }

  function CountPhysical(m: seq<Entry>): nat { CountTo(m, |m|) }

  lemma {:induction false} CountToPrefix(a: seq<Entry>, b: seq<Entry>, k: nat)
    requires k <= |a| && k <= |b| && forall i :: 0 <= i < k ==> a[i] == b[i]
    ensures CountTo(a, k) == CountTo(b, k)
  {
    if k > 0 { CountToPrefix(a, b, k - 1); }
  }

  lemma {:induction false} CountToConcat(a: seq<Entry>, b: seq<Entry>, k: nat)
    requires k <= |b|
    ensures CountTo(a + b, |a| + k) == CountPhysical(a) + CountTo(b, k)
  {
    if k == 0 { CountToPrefix(a + b, a, |a|); } else { CountToConcat(a, b, k - 1); }
  }

  lemma {:induction false} CountPhysicalConcat(a: seq<Entry>, b: seq<Entry>)
    ensures CountPhysical(a + b) == CountPhysical(a) + CountPhysical(b)
  {
    CountToConcat(a, b, |b|);
  }

  lemma {:induction false} CountToUniform(m: seq<Entry>, isVirtual: bool, k: nat)
    requires k <= |m| && forall i :: 0 <= i < |m| ==> m[i].isVirtual == isVirtual
    ensures CountTo(m, k) == if isVirtual then 0 else k
  {
    if k > 0 { CountToUniform(m, isVirtual, k - 1); }
  }

  lemma {:induction false} CountPhysicalUniform(m: seq<Entry>, isVirtual: bool)
    requires forall i :: 0 <= i < |m| ==> m[i].isVirtual == isVirtual
    ensures CountPhysical(m) == if isVirtual then 0 else |m|
  {
    CountToUniform(m, isVirtual, |m|);
  }
}
