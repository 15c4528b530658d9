/** Runs of consecutive tracks and the latency and size charged for them (src/record_op.c). */
module Runs {
  import opened Geometry
  import opened Batch

  type Run = seq<Entry>

  // ----- the declarative split ----------------------------------------------

  predicate Consecutive(run: Run) {
    && run != []
    && forall i :: 0 <= i < |run| - 1 ==> run[i].pba + 1 == run[i + 1].pba
  }

  function FlattenTo(runs: seq<Run>, k: nat): seq<Entry>
    requires k <= |runs|
  {
    if k == 0 then [] else FlattenTo(runs, k - 1) + runs[k - 1]
  }

  /** The list that a list of runs cuts up. */
  function Flatten(runs: seq<Run>): seq<Entry> { FlattenTo(runs, |runs|) }

  lemma {:induction false} FlattenToPrefix(a: seq<Run>, b: seq<Run>, k: nat)
    requires k <= |a| && k <= |b| && forall i :: 0 <= i < k ==> a[i] == b[i]
    ensures FlattenTo(a, k) == FlattenTo(b, k)
  {
    if k > 0 { FlattenToPrefix(a, b, k - 1); }
  }

  lemma {:induction false} FlattenSnoc(runs: seq<Run>, run: Run)
    ensures Flatten(runs + [run]) == Flatten(runs) + run
  {
    FlattenToPrefix(runs + [run], runs, |runs|);
  }

  /** Runs that cannot be shortened or joined. */
  predicate ProperlyCut(runs: seq<Run>) {
    && (forall k :: 0 <= k < |runs| ==> Consecutive(runs[k]))
    && (forall k :: 0 <= k < |runs| - 1 ==> runs[k][|runs[k]| - 1].pba + 1 != runs[k + 1][0].pba)
  }

  /** `runs` cuts `m` exactly where a track does not follow its predecessor. */
  predicate IsRunSplit(m: seq<Entry>, runs: seq<Run>) {
    Flatten(runs) == m && ProperlyCut(runs)
  }

  /** Whether the entry's track follows the last track of the last run. */
  predicate Joins(runs: seq<Run>, e: Entry) {
    && |runs| > 0
    && var last := runs[|runs| - 1];
    && |last| > 0 && last[|last| - 1].pba + 1 == e.pba
  }

  /** The runs after one more entry: it extends the last run or opens a new one. */
  function AddEntry(runs: seq<Run>, e: Entry): seq<Run> {
    if Joins(runs, e) then runs[|runs| - 1 := runs[|runs| - 1] + [e]] else runs + [[e]]
  }

  function SplitTo(m: seq<Entry>, k: nat): seq<Run>
    requires k <= |m|
  {
    if k == 0 then [] else AddEntry(SplitTo(m, k - 1), m[k - 1])
  }

  function SplitRuns(m: seq<Entry>): seq<Run> { SplitTo(m, |m|) }

  lemma {:induction false} AddEntryFlattens(runs: seq<Run>, e: Entry)
    ensures Flatten(AddEntry(runs, e)) == Flatten(runs) + [e]
  {
    if Joins(runs, e) {
      var k := |runs| - 1;
      FlattenToPrefix(runs, AddEntry(runs, e), k);
      var before, last := FlattenTo(runs, k), runs[k];
      assert before + (last + [e]) == (before + last) + [e];
    } else {
      FlattenSnoc(runs, [e]);
    }
  }

  lemma {:induction false} AddEntryKeepsCuts(runs: seq<Run>, e: Entry)
    requires ProperlyCut(runs)
    ensures ProperlyCut(AddEntry(runs, e))
  {
    var r := AddEntry(runs, e);
    forall k | 0 <= k < |r| ensures Consecutive(r[k]) {
      assert k < |runs| ==> Consecutive(runs[k]);
    }
  }

  lemma {:induction false} SplitToIsRunSplit(m: seq<Entry>, k: nat)
    requires k <= |m|
    ensures IsRunSplit(m[..k], SplitTo(m, k))
  {
    if k > 0 {
      SplitToIsRunSplit(m, k - 1);
      AddEntryFlattens(SplitTo(m, k - 1), m[k - 1]);
      AddEntryKeepsCuts(SplitTo(m, k - 1), m[k - 1]);
      assert m[..k] == m[..k - 1] + [m[k - 1]];
    }
  }

  lemma {:induction false} SplitRunsIsRunSplit(m: seq<Entry>)
    ensures IsRunSplit(m, SplitRuns(m))
  {
    SplitToIsRunSplit(m, |m|);
    assert m[..|m|] == m;
  }

  /** Taking the last entry off a split whose last run has one entry. */
  lemma {:induction false} DropShortRun(m: seq<Entry>, runs: seq<Run>)
    requires IsRunSplit(m, runs) && |m| > 0 && |runs| > 0 && |runs[|runs| - 1]| == 1
    ensures IsRunSplit(m[..|m| - 1], runs[..|runs| - 1])
    ensures runs == AddEntry(runs[..|runs| - 1], m[|m| - 1])
  {
    var k := |runs| - 1;
    FlattenToPrefix(runs[..k], runs, k);
    assert Flatten(runs[..k]) == m[..|m| - 1];
    assert runs[k] == [m[|m| - 1]];
    assert runs == runs[..k] + [runs[k]];
    assert forall i :: 0 <= i < k ==> runs[..k][i] == runs[i];
  }

  /** Taking the last entry off a split whose last run is longer. */
  lemma {:induction false} ShortenRun(m: seq<Entry>, runs: seq<Run>, shorter: Run)
    requires IsRunSplit(m, runs) && |m| > 0 && |runs| > 0 && |shorter| > 0
    requires runs[|runs| - 1] == shorter + [m[|m| - 1]]
    ensures IsRunSplit(m[..|m| - 1], runs[|runs| - 1 := shorter])
    ensures runs == AddEntry(runs[|runs| - 1 := shorter], m[|m| - 1])
  {
    var k := |runs| - 1;
    var before, last := runs[k := shorter], runs[k];
    FlattenToPrefix(before, runs, k);
    assert Flatten(before) == m[..|m| - 1];
    assert Consecutive(last) && last[|last| - 2].pba + 1 == last[|last| - 1].pba;
    forall i | 0 <= i < |before| ensures Consecutive(before[i]) {
      assert Consecutive(runs[i]);
      if i == k { assert forall j :: 0 <= j < |shorter| ==> shorter[j] == last[j]; }
    }
    assert last[0] == shorter[0];
  }

  /** Taking the last entry off a split leaves a split of the shorter list. */
  lemma {:induction false} RunSplitInit(m: seq<Entry>, runs: seq<Run>) returns (before: seq<Run>)
    requires IsRunSplit(m, runs) && |m| > 0
    ensures IsRunSplit(m[..|m| - 1], before)
    ensures runs == AddEntry(before, m[|m| - 1])
  {
    var k := |runs| - 1;
    var last := runs[k];
    assert Consecutive(last);
    var shorter := last[..|last| - 1];
    assert last == shorter + [m[|m| - 1]];
    if |shorter| == 0 {
      before := runs[..k];
      DropShortRun(m, runs);
    } else {
      before := runs[k := shorter];
      ShortenRun(m, runs, shorter);
    }
  }

  lemma {:induction false} FlattenNonempty(runs: seq<Run>)
    requires ProperlyCut(runs)
    ensures |Flatten(runs)| == 0 ==> |runs| == 0
  {
    if |runs| > 0 { assert Consecutive(runs[|runs| - 1]); }
  }

  lemma {:induction false} SplitToPrefix(a: seq<Entry>, b: seq<Entry>, k: nat)
    requires k <= |a| && k <= |b| && forall i :: 0 <= i < k ==> a[i] == b[i]
    ensures SplitTo(a, k) == SplitTo(b, k)
  {
    if k > 0 { SplitToPrefix(a, b, k - 1); }
  }

  /** There is only one way to cut a list into maximal consecutive runs. */
  lemma {:induction false} RunSplitIsUnique(m: seq<Entry>, runs: seq<Run>)
    requires IsRunSplit(m, runs)
    ensures runs == SplitRuns(m)
    decreases |m|
  {
    hide AddEntry, Flatten, FlattenTo;
    if |m| == 0 {
      FlattenNonempty(runs);
    } else {
      var before := RunSplitInit(m, runs);
      RunSplitIsUnique(m[..|m| - 1], before);
      SplitToPrefix(m, m[..|m| - 1], |m| - 1);
    }
  }

  // ----- what a run costs -----------------------------------------------------

  /**
    What a list of runs costs: how many runs there are of either kind, head movements, tracks passed under the
    head, and the tracks that the request asked for (`direct`), that were rewritten around it and re-read for it.
   */
  datatype Totals = Totals(physicalRuns: nat, virtualRuns: nat, seeks: nat, passed: nat, direct: nat, rewrite: nat, reread: nat)

  const ZERO: Totals := Totals(0, 0, 0, 0, 0, 0, 0)

  ghost predicate IsSum(r: Totals, a: Totals, b: Totals) {
    && r.physicalRuns == a.physicalRuns + b.physicalRuns && r.virtualRuns == a.virtualRuns + b.virtualRuns
    && r.seeks == a.seeks + b.seeks && r.passed == a.passed + b.passed
    && r.direct == a.direct + b.direct && r.rewrite == a.rewrite + b.rewrite && r.reread == a.reread + b.reread
  }

  /**
    What any sum of run costs satisfies: one seek per physical run and three per virtual run, re-read tracks pass
    two more times, and only virtual runs re-read more than they rewrite.
   */
  ghost predicate Lawful(t: Totals) {
    && t.seeks == t.physicalRuns + 3 * t.virtualRuns
    && t.passed == t.direct + t.rewrite + 2 * t.reread
    && t.rewrite <= t.reread <= t.rewrite + t.direct
  }

  /** Nothing virtual was charged: no run was rewritten or read back. */
  ghost predicate OnlyPhysical(t: Totals) {
    t.virtualRuns == t.rewrite == t.reread == 0
  }

  /** `k` units, added up one by one as the counters are. */
  function Times(k: nat, unit: nat): nat
    decreases k
  {
    if k == 0 then 0 else Times(k - 1, unit) + unit
  }

  lemma {:induction false} TimesIsProduct(k: nat, unit: nat)
    ensures Times(k, unit) == k * unit
    decreases k
  {
    if k > 0 { TimesIsProduct(k - 1, unit); }
  }

  lemma {:induction false} TimesAdd(a: nat, b: nat, unit: nat)
    ensures Times(a + b, unit) == Times(a, unit) + Times(b, unit)
  {
    TimesIsProduct(a, unit);
    TimesIsProduct(b, unit);
    TimesIsProduct(a + b, unit);
  }

  function Nanoseconds(t: Totals): nat { Times(t.seeks, L_SEEK) + Times(t.passed, L_ROTATIONAL + L_TRANSFER) }

  function Bytes(tracks: nat): nat { Times(tracks, TRACK_SIZE) }

  lemma {:induction false} NanosecondsAdd(r: Totals, a: Totals, b: Totals)
    requires IsSum(r, a, b)
    ensures Nanoseconds(r) == Nanoseconds(a) + Nanoseconds(b)
  {
    TimesAdd(a.seeks, b.seeks, L_SEEK);
    TimesAdd(a.passed, b.passed, L_ROTATIONAL + L_TRANSFER);
  }

  lemma {:induction false} BytesAdd(r: Totals, a: Totals, b: Totals)
    requires IsSum(r, a, b)
    ensures Bytes(r.direct) == Bytes(a.direct) + Bytes(b.direct)
    ensures Bytes(r.rewrite) == Bytes(a.rewrite) + Bytes(b.rewrite)
    ensures Bytes(r.reread) == Bytes(a.reread) + Bytes(b.reread)
  {
    TimesAdd(a.direct, b.direct, TRACK_SIZE);
    TimesAdd(a.rewrite, b.rewrite, TRACK_SIZE);
    TimesAdd(a.reread, b.reread, TRACK_SIZE);
  }

  lemma {:induction false} NothingCostsNothing(t: Totals)
    requires t.seeks == t.passed == t.direct == t.rewrite == t.reread == 0
    ensures Nanoseconds(t) == 0 && Bytes(t.direct) == Bytes(t.rewrite) == Bytes(t.reread) == 0
  {
    TimesIsProduct(t.seeks, L_SEEK);
    TimesIsProduct(t.passed, L_ROTATIONAL + L_TRANSFER);
    TimesIsProduct(t.direct, TRACK_SIZE);
  }

  lemma {:induction false} TotalsOf(n: nat) returns (t: Totals)
    ensures t.physicalRuns == t.virtualRuns == t.seeks == t.passed == t.direct == t.rewrite == t.reread == n
  {
    t := Totals(n, n, n, n, n, n, n);
  }

  /** Nothing charged yet: no time, no bytes. */
  lemma {:induction false} NoTotals() returns (t: Totals)
    ensures Lawful(t) && t.direct == 0 && Nanoseconds(t) == 0
    ensures OnlyPhysical(t)
    ensures Bytes(t.direct) == Bytes(t.rewrite) == Bytes(t.reread) == 0
  {
    hide Times, Nanoseconds, Bytes;
    t := TotalsOf(0);
    NothingCostsNothing(t);
  }

  function HasVirtual(run: Run): bool {
    exists i :: 0 <= i < |run| && run[i].isVirtual
  }

  function PhysicalCost(tracks: nat): Totals {
    Totals(1, 0, 1, tracks, tracks, 0, 0)
  }

  /** A run with virtual tracks is read, written to a temporary area and written back. */
  function VirtualCost(tracks: nat, physical: nat): Totals
    requires physical <= tracks
  {
    Totals(0, 1, 1 + 2, tracks + 2 * tracks, physical, tracks - physical, tracks)
  }

  function RunCost(run: Run): Totals {
    if HasVirtual(run) then VirtualCost(|run|, CountPhysical(run)) else PhysicalCost(|run|)
  }

  function TallyTo(runs: seq<Run>, k: nat): Totals
    requires k <= |runs|
  {
    if k == 0 then ZERO
    else
      var before, last := TallyTo(runs, k - 1), RunCost(runs[k - 1]);
      Totals(before.physicalRuns + last.physicalRuns, before.virtualRuns + last.virtualRuns,
             before.seeks + last.seeks, before.passed + last.passed, before.direct + last.direct,
             before.rewrite + last.rewrite, before.reread + last.reread)
  }

  /** What a list of runs costs together. */
  function Tally(runs: seq<Run>): Totals { TallyTo(runs, |runs|) }

  lemma {:induction false} TallyToPrefix(a: seq<Run>, b: seq<Run>, k: nat)
    requires k <= |a| && k <= |b| && forall i :: 0 <= i < k ==> a[i] == b[i]
    ensures TallyTo(a, k) == TallyTo(b, k)
  {
    if k > 0 { TallyToPrefix(a, b, k - 1); }
  }

  lemma {:induction false} TallySnoc(runs: seq<Run>, run: Run)
    ensures IsSum(Tally(runs + [run]), Tally(runs), RunCost(run))
  {
    TallyToPrefix(runs + [run], runs, |runs|);
  }

  // ----- the one-pass detectors ------------------------------------------------

  /** The detector starts with no closed run and the first entry in the open one. */
  lemma {:induction false} FirstRun(m: seq<Entry>) returns (closed: seq<Run>, open: Run)
    requires |m| > 0
    ensures |closed| == 0 && open == [m[0]]
    ensures SplitTo(m, 1) == closed + [open] && Tally(closed) == ZERO
  {
    closed, open := [], [m[0]];
    assert SplitTo(m, 0) == [];
  }

  /** One step of the split: the next entry either joins the open run or closes it. */
  lemma {:induction false} SplitStep(m: seq<Entry>, i: nat, closed: seq<Run>, open: Run)
    requires i + 1 < |m|
    requires |open| > 0 && open[|open| - 1] == m[i] && SplitTo(m, i + 1) == closed + [open]
    ensures SplitTo(m, i + 2) ==
            if m[i].pba + 1 == m[i + 1].pba then closed + [open + [m[i + 1]]] else closed + [open] + [[m[i + 1]]]
  {
    assert SplitTo(m, i + 2) == AddEntry(SplitTo(m, i + 1), m[i + 1]);
  }

  /**
    The state of the detector between two steps: `physical` and `isVirtual` describe the open run up to,
    but not including, its last entry `current`.
   */
  ghost predicate Detecting(open: Run, current: Entry, continuous: nat, physical: nat, isVirtual: bool) {
    && |open| > 0 && open[|open| - 1] == current
    && continuous == |open|
    && physical == CountTo(open, |open| - 1)
    && ((isVirtual || current.isVirtual) == HasVirtual(open))
  }

  lemma {:induction false} DetectingStart(e: Entry, isVirtual: bool)
    requires isVirtual ==> e.isVirtual
    ensures Detecting([e], e, 1, 0, isVirtual)
  {
    assert [e][0] == e;
  }

  lemma {:induction false} DetectingJoin(open: Run, continuous: nat, physical: nat, isVirtual: bool, e: Entry)
    requires |open| > 0 && continuous == |open| && physical == CountPhysical(open) && isVirtual == HasVirtual(open)
    ensures Detecting(open + [e], e, continuous + 1, physical, isVirtual)
  {
    CountToPrefix(open + [e], open, |open|);
    assert (open + [e])[|open|] == e;
    if HasVirtual(open) {
      var i :| 0 <= i < |open| && open[i].isVirtual;
      assert (open + [e])[i].isVirtual;
    }
  }

  /** Closing the open run charges it by what the detector has seen of it. */
  lemma {:induction false} CloseRun(closed: seq<Run>, open: Run, continuous: nat, physical: nat, isVirtual: bool)
    requires |open| > 0 && continuous == |open| && physical == CountPhysical(open) && isVirtual == HasVirtual(open)
    ensures IsSum(Tally(closed + [open]), Tally(closed),
                  if isVirtual then VirtualCost(continuous, physical) else PhysicalCost(continuous))
  {
    TallySnoc(closed, open);
  }

  lemma {:induction false} DetectingLast(open: Run, current: Entry, continuous: nat, physical: nat, isVirtual: bool)
    requires Detecting(open, current, continuous, physical, isVirtual)
    ensures CountPhysical(open) == physical + if current.isVirtual then 0 else 1
    ensures HasVirtual(open) == (isVirtual || current.isVirtual)
  {
  }

  method AddCost(total: Totals, cost: Totals) returns (r: Totals)
    ensures IsSum(r, total, cost)
  {
    r := Totals(total.physicalRuns + cost.physicalRuns, total.virtualRuns + cost.virtualRuns, total.seeks + cost.seeks,
                total.passed + cost.passed, total.direct + cost.direct, total.rewrite + cost.rewrite, total.reread + cost.reread);
  }

  /** The loop of record_write and record_delete. */
  method DetectRuns(m: seq<Entry>) returns (total: Totals)
    requires |m| > 0
    ensures total == Tally(SplitRuns(m))
  {
    hide CountPhysical, HasVirtual, Lawful, RunCost, AddEntry, SplitTo, TallyTo, Tally, VirtualCost, PhysicalCost;
    total := Totals(0, 0, 0, 0, 0, 0, 0);
    var continuous: nat, physical: nat := 1, 0;
    var track, currIsVirtual := m[0].pba, m[0].isVirtual;
    var isVirtual := currIsVirtual;
    ghost var closed, open := FirstRun(m);
    DetectingStart(m[0], isVirtual);
    var i := 0;
    while i + 1 < |m|
      invariant 0 <= i < |m|
      invariant SplitTo(m, i + 1) == closed + [open]
      invariant track == m[i].pba && currIsVirtual == m[i].isVirtual
      invariant total == Tally(closed)
      invariant Detecting(open, m[i], continuous, physical, isVirtual)
    {
      DetectingLast(open, m[i], continuous, physical, isVirtual);
      if currIsVirtual { isVirtual := true; } else { physical := physical + 1; }
      var next := m[i + 1].pba;
      SplitStep(m, i, closed, open);
      if track + 1 == next {
        DetectingJoin(open, continuous, physical, isVirtual, m[i + 1]);
        open := open + [m[i + 1]];
        continuous := continuous + 1;
      } else {
        CloseRun(closed, open, continuous, physical, isVirtual);
        total := AddCost(total, if isVirtual then VirtualCost(continuous, physical) else PhysicalCost(continuous));
        closed, open := closed + [open], [m[i + 1]];
        continuous, physical, isVirtual := 1, 0, false;
        DetectingStart(m[i + 1], false);
      }
      track, currIsVirtual := next, m[i + 1].isVirtual;
      i := i + 1;
    }
    DetectingLast(open, m[i], continuous, physical, isVirtual);
    if currIsVirtual { isVirtual := true; } else { physical := physical + 1; }
    CloseRun(closed, open, continuous, physical, isVirtual);
    total := AddCost(total, if isVirtual then VirtualCost(continuous, physical) else PhysicalCost(continuous));
  }

  /** The loop of record_read and of the CMR build, which charges every run as physical. */
  method DetectPhysicalRuns(m: seq<Entry>) returns (total: Totals)
    requires |m| > 0
    requires forall i :: 0 <= i < |m| ==> !m[i].isVirtual
    ensures total == Tally(SplitRuns(m))
  {
    total := Totals(0, 0, 0, 0, 0, 0, 0);
    var continuous: nat := 1;
    var track := m[0].pba;
    ghost var closed, open := FirstRun(m);
    DetectingStart(m[0], false);
    DetectingLast(open, m[0], 1, 0, false);
    var i := 0;
    while i + 1 < |m|
      invariant 0 <= i < |m|
      invariant SplitTo(m, i + 1) == closed + [open]
      invariant track == m[i].pba
      invariant total == Tally(closed)
      invariant |open| > 0 && open[|open| - 1] == m[i]
      invariant continuous == |open| == CountPhysical(open) && !HasVirtual(open)
    {
      var next := m[i + 1].pba;
      SplitStep(m, i, closed, open);
      if track + 1 == next {
        DetectingJoin(open, continuous, continuous, false, m[i + 1]);
        open := open + [m[i + 1]];
        DetectingLast(open, m[i + 1], continuous + 1, continuous, false);
        continuous := continuous + 1;
      } else {
        CloseRun(closed, open, continuous, continuous, false);
        total := AddCost(total, PhysicalCost(continuous));
        DetectingStart(m[i + 1], false);
        DetectingLast([m[i + 1]], m[i + 1], 1, 0, false);
        closed, open := closed + [open], [m[i + 1]];
        continuous := 1;
      }
      track := next;
      i := i + 1;
    }
    CloseRun(closed, open, continuous, continuous, false);
    total := AddCost(total, PhysicalCost(continuous));
  }

  // ----- identities over everything that was ever charged -----------------------

  lemma {:induction false} TallyIsLawful(runs: seq<Run>, k: nat)
    requires k <= |runs|
    ensures Lawful(TallyTo(runs, k))
  {
    if k > 0 { TallyIsLawful(runs, k - 1); }
  }

  lemma {:induction false} LawfulSum(a: Totals, b: Totals) returns (r: Totals)
    requires Lawful(a) && Lawful(b)
    ensures IsSum(r, a, b) && Lawful(r)
  {
    r := Totals(a.physicalRuns + b.physicalRuns, a.virtualRuns + b.virtualRuns, a.seeks + b.seeks,
                a.passed + b.passed, a.direct + b.direct, a.rewrite + b.rewrite, a.reread + b.reread);
  }

  lemma {:induction false} DirectCost(run: Run)
    ensures RunCost(run).direct == CountPhysical(run) && RunCost(run).rewrite + CountPhysical(run) == |run|
  {
    if !HasVirtual(run) { CountPhysicalUniform(run, false); }
  }

  lemma {:induction false} TallyWrites(runs: seq<Run>, k: nat)
    requires k <= |runs|
    ensures TallyTo(runs, k).direct == CountPhysical(FlattenTo(runs, k))
    ensures TallyTo(runs, k).rewrite + TallyTo(runs, k).direct == |FlattenTo(runs, k)|
  {
    if k > 0 {
      TallyWrites(runs, k - 1);
      CountPhysicalConcat(FlattenTo(runs, k - 1), runs[k - 1]);
      DirectCost(runs[k - 1]);
    }
  }

  /**
    The tracks charged as written are the physical entries, and those charged as rewritten all the others, however the
    list falls into runs.
   */
  lemma {:induction false} WriteIsPhysicalSize(m: seq<Entry>)
    ensures Tally(SplitRuns(m)).direct == CountPhysical(m)
    ensures Tally(SplitRuns(m)).rewrite + CountPhysical(m) == |m|
  {
    SplitRunsIsRunSplit(m);
    TallyWrites(SplitRuns(m), |SplitRuns(m)|);
  }

  /** A list without virtual entries charges nothing for read-modify-write. */
  lemma {:induction false} PhysicalListTally(m: seq<Entry>)
    requires forall i :: 0 <= i < |m| ==> !m[i].isVirtual
    ensures var t := Tally(SplitRuns(m)); t.virtualRuns == t.rewrite == t.reread == 0 && t.direct == |m|
  {
    SplitRunsIsRunSplit(m);
    PhysicalRunsTally(SplitRuns(m), |SplitRuns(m)|);
    WriteIsPhysicalSize(m);
    CountPhysicalUniform(m, false);
  }

  lemma {:induction false} PhysicalRunsTally(runs: seq<Run>, k: nat)
    requires k <= |runs|
    requires forall i :: 0 <= i < |FlattenTo(runs, k)| ==> !FlattenTo(runs, k)[i].isVirtual
    ensures TallyTo(runs, k).virtualRuns == TallyTo(runs, k).rewrite == TallyTo(runs, k).reread == 0
  {
    if k > 0 {
      var init, last := FlattenTo(runs, k - 1), runs[k - 1];
      assert FlattenTo(runs, k) == init + last;
      forall i | 0 <= i < |last| ensures !last[i].isVirtual { assert last[i] == (init + last)[|init| + i]; }
      forall i | 0 <= i < |init| ensures !init[i].isVirtual { assert init[i] == (init + last)[i]; }
      PhysicalRunsTally(runs, k - 1);
    }
  }

  /** A consecutive list of physical entries is charged as one run. */
  lemma {:induction false} OneRunTally(m: seq<Entry>)
    requires Consecutive(m) && forall i :: 0 <= i < |m| ==> !m[i].isVirtual
    ensures Tally(SplitRuns(m)) == PhysicalCost(|m|)
  {
    FlattenSnoc([], m);
    assert [] + [m] == [m];
    RunSplitIsUnique(m, [m]);
    assert TallyTo([m], 0) == ZERO;
  }

  // ----- what a list costs, told from the runs it falls into ------------------------

  /** The runs among the first `k` that hold a virtual entry. */
  ghost function RewrittenRuns(runs: seq<Run>, k: nat): set<nat>
    requires k <= |runs|
  {
    set i: nat | i < k && exists e :: e in runs[i] && e.isVirtual
  }

  /** Their tracks, as pairs of run and place in it. */
  ghost function RewrittenTracks(runs: seq<Run>, k: nat): set<(nat, nat)>
    requires k <= |runs|
  {
    set i: nat, j: nat | i < k && j < |runs[i]| && (exists e :: e in runs[i] && e.isVirtual) :: (i, j)
  }

  lemma {:induction false} PairsOf(i: nat, n: nat) returns (s: set<(nat, nat)>)
    ensures |s| == n && forall p :: p in s <==> p.0 == i && p.1 < n
  {
    s := {};
    if n > 0 {
      var init := PairsOf(i, n - 1);
      s := init + {(i, n - 1)};
    }
  }

  lemma {:induction false} RewrittenMore(runs: seq<Run>, k: nat)
    requires k < |runs|
    ensures if exists e :: e in runs[k] && e.isVirtual
            then |RewrittenRuns(runs, k + 1)| == |RewrittenRuns(runs, k)| + 1
                 && |RewrittenTracks(runs, k + 1)| == |RewrittenTracks(runs, k)| + |runs[k]|
            else RewrittenRuns(runs, k + 1) == RewrittenRuns(runs, k) && RewrittenTracks(runs, k + 1) == RewrittenTracks(runs, k)
  {
    if exists e :: e in runs[k] && e.isVirtual {
      var pairs := PairsOf(k, |runs[k]|);
      assert RewrittenRuns(runs, k + 1) == RewrittenRuns(runs, k) + {k};
      assert RewrittenTracks(runs, k + 1) == RewrittenTracks(runs, k) + pairs;
    }
  }

  lemma {:induction false} CostOfRun(run: Run)
    ensures var c := RunCost(run);
      if exists e :: e in run && e.isVirtual then c.virtualRuns == 1 && c.physicalRuns == 0 && c.reread == |run|
      else c.virtualRuns == 0 && c.physicalRuns == 1 && c.reread == 0
  {
    assert (exists e :: e in run && e.isVirtual) <==> HasVirtual(run);
  }

  lemma {:induction false} TallyToCounts(runs: seq<Run>, k: nat)
    requires k <= |runs|
    ensures var t := TallyTo(runs, k);
      && t.virtualRuns == |RewrittenRuns(runs, k)| && t.physicalRuns + t.virtualRuns == k
      && t.reread == |RewrittenTracks(runs, k)|
  {
    if k > 0 {
      hide RunCost, RewrittenRuns, RewrittenTracks;
      TallyToCounts(runs, k - 1);
      CostOfRun(runs[k - 1]);
      RewrittenMore(runs, k - 1);
    } else {
      assert RewrittenRuns(runs, 0) == {} && RewrittenTracks(runs, 0) == {};
    }
  }

  /**
    Into whatever maximal runs a list falls: the runs with a virtual entry are re-read as a whole and cost three seeks,
    the others one, and the head passes every track of the list once and every re-read track twice more.
   */
  lemma {:induction false} TallyOfSplit(m: seq<Entry>, runs: seq<Run>)
    requires IsRunSplit(m, runs)
    ensures var t := Tally(SplitRuns(m));
      && t.virtualRuns == |RewrittenRuns(runs, |runs|)| && t.physicalRuns + t.virtualRuns == |runs|
      && t.seeks == |runs| + 2 * t.virtualRuns
      && t.reread == |RewrittenTracks(runs, |runs|)| && t.passed == |m| + 2 * t.reread
  {
    RunSplitIsUnique(m, runs);
    TallyToCounts(runs, |runs|);
    TallyIsLawful(runs, |runs|);
    WriteIsPhysicalSize(m);
  }
}
