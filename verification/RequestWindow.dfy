/** The hot/cold predictor of the hybrid disk: a ring buffer of the last request sizes (src/Hybrid.c). */
module HotColdPredictor {

  const WINDOW: nat := 1000

  function SumTo(s: seq<nat>, k: nat): nat
    requires k <= |s|
  {
    if k == 0 then 0 else SumTo(s, k - 1) + s[k - 1]
  }

  function Sum(s: seq<nat>): nat { SumTo(s, |s|) }

  /** The sizes a window over `history` holds: the last 1000, or all of them. */
  function Recent(history: seq<nat>): seq<nat> {
    if |history| <= WINDOW then history else history[|history| - WINDOW..]
  }

  lemma {:induction false} SumToPrefix(a: seq<nat>, b: seq<nat>, k: nat)
    requires k <= |a| && k <= |b| && forall i :: 0 <= i < k ==> a[i] == b[i]
    ensures SumTo(a, k) == SumTo(b, k)
  {
    if k > 0 { SumToPrefix(a, b, k - 1); }
  }

  lemma {:induction false} SumAppend(s: seq<nat>, x: nat)
    ensures Sum(s + [x]) == Sum(s) + x
  {
    SumToPrefix(s + [x], s, |s|);
  }

  lemma {:induction false} SumDropFirst(s: seq<nat>, k: nat)
    requires 0 < k <= |s|
    ensures SumTo(s, k) == s[0] + SumTo(s[1..], k - 1)
  {
    if k > 1 { SumDropFirst(s, k - 1); }
  }

  /** A full window slides by one request: the oldest size leaves, the new one enters. */
  lemma {:induction false} WindowSlides(history: seq<nat>, x: nat)
    requires |history| >= WINDOW
    ensures var w := Recent(history);
      && Recent(history + [x]) == w[1..] + [x]
      && w[0] <= Sum(w)
      && Sum(Recent(history + [x])) == Sum(w) - w[0] + x
  {
    var w := Recent(history);
    assert Recent(history + [x]) == w[1..] + [x];
    SumDropFirst(w, |w|);
    SumAppend(w[1..], x);
  }

  /**
    What the predictor says after `history`: 1 (cold) or 0 (hot). The first 1000 requests are compared with the initial
    bound, every later one with the mean of the 1000 sizes before it.
   */
  function Verdict(history: seq<nat>, bound: nat, blocks: nat): nat {
    if (if |history| < WINDOW then blocks >= bound else WINDOW * (blocks + 1) > Sum(Recent(history))) then 1 else 0
  }

  /** A full window answers 1 exactly for sizes that reach the mean of the last 1000, rounded down. */
  lemma {:induction false} VerdictIsMean(history: seq<nat>, bound: nat, blocks: nat)
    ensures Verdict(history, bound, blocks) <= 1
    ensures |history| < 1000 ==> (Verdict(history, bound, blocks) == 1 <==> blocks >= bound)
    ensures |history| >= 1000 ==>
              (Verdict(history, bound, blocks) == 1 <==> blocks >= Sum(history[|history| - 1000..]) / 1000)
  {
    if |history| >= 1000 { assert Recent(history) == history[|history| - 1000..]; }
  }

  /** Overwriting the oldest entry of a ring that starts at `p` is dropping it and appending the new one. */
  lemma {:induction false} RingSlides(ring: seq<nat>, p: nat, x: nat)
    requires p < |ring|
    ensures var after, w := ring[p := x], ring[p..] + ring[..p];
      && w[0] == ring[p]
      && after[p + 1..] + after[..p + 1] == w[1..] + [x]
  {
    var after := ring[p := x];
    assert after[p + 1..] == ring[p + 1..];
    assert after[..p + 1] == ring[..p] + [x];
    assert (ring[p..] + ring[..p])[1..] == ring[p + 1..] + ring[..p];
  }

  class RequestWindow {
    const sizeRecord: array<nat>
    var recordPointer: nat
    var sizeSummation: nat
    var notEnough: bool
    var hotnessBound: nat
    /** Every request size so far. */
    ghost var history: seq<nat>

    ghost predicate Valid()
      reads this, sizeRecord
    {
      && sizeRecord.Length == WINDOW
      && sizeSummation == Sum(Recent(history))
      && (notEnough <==> |history| < WINDOW)
      && (notEnough ==> recordPointer == |history| && sizeRecord[..recordPointer] == history)
      && (!notEnough ==> 1 <= recordPointer <= WINDOW)
      && (!notEnough ==> Recent(history) == sizeRecord[recordPointer..] + sizeRecord[..recordPointer])
    }

    constructor (initialBound: nat)
      ensures Valid() && fresh(sizeRecord)
      ensures |history| == 0 && hotnessBound == initialBound
    {
      sizeRecord := new nat[WINDOW];
      recordPointer, sizeSummation, notEnough := 0, 0, true;
      hotnessBound := initialBound;
      history := [];
    }

    method Fill(blocks: nat)
      requires Valid() && notEnough
      modifies this, sizeRecord
      ensures Valid() && history == old(history) + [blocks] && hotnessBound == old(hotnessBound)
    {
      SumAppend(history, blocks);
      sizeRecord[recordPointer] := blocks;
      sizeSummation := sizeSummation + blocks;
      recordPointer := recordPointer + 1;
      if recordPointer == WINDOW {
        notEnough := false;
      }
      history := history + [blocks];
      assert sizeRecord[..recordPointer] == history;
      assert Recent(history) == history;
      if !notEnough {
        assert sizeRecord[recordPointer..] + sizeRecord[..recordPointer] == history;
      }
    }

    method Slide(blocks: nat)
      requires Valid() && !notEnough
      modifies this, sizeRecord
      ensures Valid() && history == old(history) + [blocks]
      ensures hotnessBound == Sum(Recent(old(history))) / 1000
    {
      ghost var w := Recent(history);
      WindowSlides(history, blocks);
      if recordPointer == WINDOW {
        recordPointer := 0;
      }
      ghost var ring, p := sizeRecord[..], recordPointer;
      assert w == ring[p..] + ring[..p];
      RingSlides(ring, p, blocks);
      hotnessBound := sizeSummation / 1000;
      sizeSummation := sizeSummation - sizeRecord[recordPointer] + blocks;
      sizeRecord[recordPointer] := blocks;
      recordPointer := recordPointer + 1;
      history := history + [blocks];
      assert sizeRecord[..] == ring[p := blocks];
      assert sizeRecord[recordPointer..] == sizeRecord[..][p + 1..] && sizeRecord[..recordPointer] == sizeRecord[..][..p + 1];
    }

    /** determine_commit_type. Only the first 1000 calls see the bound the window was set up with. */
    method DetermineCommitType(blocks: nat) returns (commitType: nat)
      requires Valid()
      modifies this, sizeRecord
      ensures Valid() && history == old(history) + [blocks] && sizeSummation == Sum(Recent(history))
      ensures commitType == Verdict(old(history), old(hotnessBound), blocks)
      ensures commitType <= 1
      ensures |old(history)| < 1000 ==> (commitType == 1 <==> blocks >= old(hotnessBound))
      ensures |old(history)| >= 1000 ==> (commitType == 1 <==> 1000 * (blocks + 1) > Sum(Recent(old(history))))
      ensures |old(history)| < WINDOW ==> hotnessBound == old(hotnessBound)
    {
      if notEnough {
        Fill(blocks);
      } else {
        Slide(blocks);
      }
      commitType := if blocks >= hotnessBound then 1 else 0;
    }
  }
}
