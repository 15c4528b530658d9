/** The journal of the hybrid disk: appending, opening zones and checkpointing (main.c, src/Hybrid.c). */
module HybridJournaling {
  import opened Geometry
  import opened ZoneSlots
  import opened HybridZones
  import opened HotColdPredictor
  import opened Requests

  function DecrementBy(x: nat, k: nat): nat {
    if k == 0 then x else Decrement(DecrementBy(x, k - 1))
  }

  lemma {:induction false} DecrementIsExact(x: nat, k: nat)
    requires k <= x
    ensures DecrementBy(x, k) == x - k
  {
    if k > 0 { DecrementIsExact(x, k - 1); }
  }

  /** The final checkpoint decrements once per zone up to the limit, online or not, so the count may wrap. */
  lemma {:induction false} FinalCountWraps(x: nat, k: nat)
    requires x <= k <= ULONG_MAX
    ensures DecrementBy(x, k) == if x == k then 0 else ULONG_MAX + 1 - (k - x)
  {
    if x == k {
      DecrementIsExact(x, k);
    } else if x == k - 1 {
      DecrementIsExact(x, k - 1);
    } else {
      FinalCountWraps(x, k - 1);
    }
  }

  /** The number of records that still have to be placed decides first, then what the next round can do. */
  ghost function Rank(zones: seq<Zone>, limit: nat, count: nat, mode: nat): nat
    requires limit <= |zones|
  {
    if HasRoom(zones, limit, mode) then 0 else if count < limit then 1 else 2
  }

  lemma {:induction false} PlacementsSplit(fid: nat, lba: nat, j: nat, k: nat, t: nat)
    ensures Placements(fid, lba, j + k, t) == Placements(fid, lba, j, t) + Placements(fid, lba + j, k, t)
  {
  }

  lemma {:induction false} NoPlacements(s: seq<Effect>, fid: nat, lba: nat, t: nat)
    ensures s + Placements(fid, lba, 0, t) == s
  {
  }

  /** Two batches of placements one after the other are one batch. */
  lemma {:induction false} PlacementsMore(s: seq<Effect>, fid: nat, lba: nat, j: nat, k: nat, t: nat)
    ensures s + Placements(fid, lba, j + k, t) == (s + Placements(fid, lba, j, t)) + Placements(fid, lba + j, k, t)
  {
    PlacementsSplit(fid, lba, j, k, t);
  }

  /** What a line comes to, for a predictor that has seen `history` and was set up with `bound`. */
  function EffectOf(history: seq<nat>, bound: nat, r: Request): seq<Effect> {
    var lba, n := FirstBlock(r.bytes), BlockCount(r.bytes, r.numBytes);
    if r.c == 1 then [Passed(Read(lba, n, r.fid, Purpose.Request))]
    else if r.c == 2 then Placements(r.fid, lba, n, Verdict(history, bound, n))
    else if r.c == 3 then [Passed(Remove(lba, n, r.fid))]
    else []
  }

  /** The sizes the predictor is shown by the first `k` lines of a trace. */
  function WriteSizes(trace: seq<Request>, k: nat): seq<nat>
    requires k <= |trace|
  {
    if k == 0 then []
    else if trace[k - 1].c == 2 then WriteSizes(trace, k - 1) + [BlockCount(trace[k - 1].bytes, trace[k - 1].numBytes)]
    else WriteSizes(trace, k - 1)
  }

  /** What the first `k` lines of a trace come to, in order; `bound` is what the predictor was set up with. */
  function TraceEffects(trace: seq<Request>, k: nat, bound: nat): seq<Effect>
    requires k <= |trace|
  {
    if k == 0 then []
    else TraceEffects(trace, k - 1, bound) + EffectOf(WriteSizes(trace, k - 1), bound, trace[k - 1])
  }

  /** A write with at least one block. */
  predicate WritesBlocks(r: Request) { r.c == 2 && BlockCount(r.bytes, r.numBytes) > 0 }

  lemma {:induction false} NoEffectsYet(trace: seq<Request>, bound: nat)
    ensures |WriteSizes(trace, 0)| == |TraceEffects(trace, 0, bound)| == 0
  {
  }

  /** One more line, with the bound the predictor has by then: it only matters while it is still the initial one. */
  lemma {:induction false} EffectsStep(trace: seq<Request>, i: nat, bound: nat, bound': nat)
    requires i < |trace| && (|WriteSizes(trace, i)| < WINDOW ==> bound' == bound)
    ensures trace[i].c == 2 ==>
              WriteSizes(trace, i + 1) == WriteSizes(trace, i) + [BlockCount(trace[i].bytes, trace[i].numBytes)]
    ensures trace[i].c != 2 ==> WriteSizes(trace, i + 1) == WriteSizes(trace, i)
    ensures TraceEffects(trace, i + 1, bound)
            == TraceEffects(trace, i, bound) + EffectOf(WriteSizes(trace, i), bound', trace[i])
  {
  }

  // ----- what a line means, byte by byte -----------------------------------------------------

  /** A range of blocks is that of the bytes of a line, and of its file. */
  ghost predicate IsRangeOf(lba: nat, n: nat, fid: nat, r: Request) {
    fid == r.fid && forall block: nat :: HoldsByte(block, r.bytes, r.numBytes) <==> lba <= block < lba + n
  }

  /**
    The journal writes of a stretch of the log carry the blocks that hold a byte of the line, all of them, in ascending
    order and hence once, for zone type `t`; nothing is passed on.
   */
  ghost predicate JournalsLine(log: seq<Command>, r: Request, t: nat) {
    && (forall k :: 0 <= k < |log| ==> !IsPassed(log[k]))
    && (forall k: nat, o: nat :: Carries(log, k, o) ==>
          var rec := Carried(log, k, o);
          rec.fid == r.fid && HoldsByte(rec.lba, r.bytes, r.numBytes) && log[k].purpose.zoneType == t)
    && (forall block: nat :: HoldsByte(block, r.bytes, r.numBytes) ==>
          exists k: nat, o: nat :: Carries(log, k, o) && Carried(log, k, o) == Record(r.fid, block))
    && (forall k: nat, o: nat, k': nat, o': nat :: Carries(log, k, o) && Carries(log, k', o') && (k < k' || (k == k' && o < o'))
          ==> Carried(log, k, o).lba < Carried(log, k', o').lba)
  }

  /** What the commands issued for a line are: reads and deletes go to the disk, writes to zones of type `t`. */
  ghost predicate LineLog(log: seq<Command>, r: Request, t: nat) {
    if r.c == 1 then
      |log| == 1 && log[0].Read? && log[0].purpose.Request? && IsRangeOf(log[0].lba, log[0].n, log[0].fid, r)
    else if r.c == 2 then JournalsLine(log, r, t)
    else if r.c == 3 then |log| == 1 && log[0].Remove? && IsRangeOf(log[0].lba, log[0].n, log[0].fid, r)
    else |log| == 0
  }

  lemma {:induction false} LineIsRange(r: Request)
    ensures IsRangeOf(FirstBlock(r.bytes), BlockCount(r.bytes, r.numBytes), r.fid, r)
  {
    forall block: nat
      ensures HoldsByte(block, r.bytes, r.numBytes)
              <==> FirstBlock(r.bytes) <= block < FirstBlock(r.bytes) + BlockCount(r.bytes, r.numBytes)
    {
      ConversionIsExact(r.bytes, r.numBytes, block);
    }
  }

  /** The `o`-th record of command `k` is the one whose turn it is. */
  lemma {:induction false} CarriedInTurn(log: seq<Command>, fid: nat, lba: nat, n: nat, t: nat, k: nat, o: nat)
    requires Effects(log) == Placements(fid, lba, n, t) && Carries(log, k, o)
    ensures |EffectsTo(log, k)| + o < n && log[k].purpose.zoneType == t
    ensures Carried(log, k, o) == Record(fid, lba + |EffectsTo(log, k)| + o)
  {
    EffectsToGrows(log, k + 1, |log|);
    assert EffectsTo(log, k + 1)[|EffectsTo(log, k)| + o] == Effects(log)[|EffectsTo(log, k)| + o];
  }

  lemma {:induction false} CarrierOf(log: seq<Command>, k: nat, d: nat) returns (j: nat, o: nat)
    requires k <= |log| && d < |EffectsTo(log, k)| && EffectsTo(log, k)[d].Placed?
    ensures Carries(log, j, o) && |EffectsTo(log, j)| + o == d
  {
    if d < |EffectsTo(log, k - 1)| {
      EffectsToGrows(log, k - 1, k);
      j, o := CarrierOf(log, k - 1, d);
    } else {
      j, o := k - 1, d - |EffectsTo(log, k - 1)|;
    }
  }

  lemma {:induction false} PassedShows(log: seq<Command>, k: nat)
    requires k < |log| && IsPassed(log[k])
    ensures exists i :: 0 <= i < |Effects(log)| && Effects(log)[i].Passed?
  {
    EffectsToGrows(log, k + 1, |log|);
    assert EffectsTo(log, k + 1)[|EffectsTo(log, k)|] == Passed(log[k]);
    assert Effects(log)[|EffectsTo(log, k)|].Passed?;
  }

  lemma {:induction false} NothingPassed(log: seq<Command>, fid: nat, lba: nat, n: nat, t: nat, k: nat)
    requires Effects(log) == Placements(fid, lba, n, t) && k < |log|
    ensures !IsPassed(log[k])
  {
    if IsPassed(log[k]) { PassedShows(log, k); }
  }

  lemma {:induction false} CarriedInOrder(log: seq<Command>, fid: nat, lba: nat, n: nat, t: nat, k: nat, o: nat, k': nat,
                                          o': nat)
    requires Effects(log) == Placements(fid, lba, n, t)
    requires Carries(log, k, o) && Carries(log, k', o') && (k < k' || (k == k' && o < o'))
    ensures Carried(log, k, o).lba < Carried(log, k', o').lba
  {
    CarriedInTurn(log, fid, lba, n, t, k, o);
    CarriedInTurn(log, fid, lba, n, t, k', o');
    if k < k' { EffectsToGrows(log, k + 1, k'); }
  }

  /** Commands that come to the placements of a line journal the line. */
  lemma {:induction false} PlacementsJournalLine(log: seq<Command>, r: Request, t: nat)
    requires Effects(log) == Placements(r.fid, FirstBlock(r.bytes), BlockCount(r.bytes, r.numBytes), t)
    ensures JournalsLine(log, r, t)
  {
    hide Effects, EffectsTo, Placements, FirstBlock, BlockCount, HoldsByte, Carried, Carries, IsPassed;
    var lba, n := FirstBlock(r.bytes), BlockCount(r.bytes, r.numBytes);
    LineIsRange(r);
    forall k | 0 <= k < |log| ensures !IsPassed(log[k]) { NothingPassed(log, r.fid, lba, n, t, k); }
    forall k: nat, o: nat | Carries(log, k, o)
      ensures k < |log| && IsJournalWrite(log[k]) && Carried(log, k, o).fid == r.fid
      ensures HoldsByte(Carried(log, k, o).lba, r.bytes, r.numBytes) && log[k].purpose.zoneType == t
    {
      CarriesIs(log, k, o);
      CarriedInTurn(log, r.fid, lba, n, t, k, o);
    }
    forall block: nat | HoldsByte(block, r.bytes, r.numBytes)
      ensures exists k: nat, o: nat :: Carries(log, k, o) && Carried(log, k, o) == Record(r.fid, block)
    {
      PlacementAt(log, r.fid, lba, n, t, block - lba);
      var k, o := CarrierOf(log, |log|, block - lba);
      CarriesIs(log, k, o);
      CarriedInTurn(log, r.fid, lba, n, t, k, o);
    }
    forall k: nat, o: nat, k': nat, o': nat
      | Carries(log, k, o) && Carries(log, k', o') && (k < k' || (k == k' && o < o'))
      ensures k < |log| && IsJournalWrite(log[k]) && k' < |log| && IsJournalWrite(log[k'])
      ensures Carried(log, k, o).lba < Carried(log, k', o').lba
    {
      CarriesIs(log, k, o);
      CarriesIs(log, k', o');
      CarriedInOrder(log, r.fid, lba, n, t, k, o, k', o');
    }
  }

  /** What a line adds to a log is what it comes to on its own. */
  lemma {:induction false} LineComesTo(log0: seq<Command>, log: seq<Command>, r: Request, t: nat)
    requires log0 <= log
    requires Effects(log) == Effects(log0) + Placements(r.fid, FirstBlock(r.bytes), BlockCount(r.bytes, r.numBytes), t)
    ensures JournalsLine(log[|log0|..], r, t)
  {
    hide EffectsTo, Placements, FirstBlock, BlockCount, JournalsLine;
    var more, placed := log[|log0|..], Placements(r.fid, FirstBlock(r.bytes), BlockCount(r.bytes, r.numBytes), t);
    assert log == log0 + more;
    EffectsToConcat(log0, more, |more|);
    assert Effects(log)[|Effects(log0)|..] == Effects(more) && Effects(log)[|Effects(log0)|..] == placed;
    PlacementsJournalLine(more, r, t);
  }

  lemma {:induction false} LinePassesOn(log0: seq<Command>, log: seq<Command>, r: Request, t: nat, c: Command)
    requires log == log0 + [c]
    requires r.c == 1 ==> c == Read(FirstBlock(r.bytes), BlockCount(r.bytes, r.numBytes), r.fid, Purpose.Request)
    requires r.c == 3 ==> c == Remove(FirstBlock(r.bytes), BlockCount(r.bytes, r.numBytes), r.fid)
    requires r.c == 1 || r.c == 3
    ensures LineLog(log[|log0|..], r, t)
  {
    hide FirstBlock, BlockCount, IsRangeOf;
    assert log[|log0|..] == [c];
    LineIsRange(r);
  }

  lemma {:induction false} LineIsIgnored(log: seq<Command>, r: Request, t: nat)
    requires r.c != 1 && r.c != 2 && r.c != 3
    ensures LineLog(log[|log|..], r, t)
  {
  }

  lemma {:induction false} LineIsJournaled(log: seq<Command>, r: Request, t: nat)
    requires r.c == 2 && JournalsLine(log, r, t)
    ensures LineLog(log, r, t)
  {
  }

  lemma {:induction false} CarriesIs(log: seq<Command>, k: nat, o: nat)
    requires Carries(log, k, o)
    ensures k < |log| && IsJournalWrite(log[k])
  {
  }

  lemma {:induction false} PlacementAt(log: seq<Command>, fid: nat, lba: nat, n: nat, t: nat, d: nat)
    requires Effects(log) == Placements(fid, lba, n, t) && d < n
    ensures d < |EffectsTo(log, |log|)| && EffectsTo(log, |log|)[d].Placed?
  {
  }

  /** The log of a trace falls into stretches, one for each line in order. */
  ghost predicate LineByLine(log: seq<Command>, trace: seq<Request>, bound: nat, cuts: seq<nat>) {
    && |cuts| == |trace| + 1 && cuts[0] == 0 && cuts[|trace|] <= |log|
    && forall i :: 0 <= i < |trace| ==> LineAt(log, trace, bound, i, cuts[i], cuts[i + 1])
  }

  ghost predicate LineAt(log: seq<Command>, trace: seq<Request>, bound: nat, i: nat, lo: nat, hi: nat) {
    && i < |trace| && lo <= hi <= |log|
    && LineLog(log[lo..hi], trace[i], Verdict(WriteSizes(trace, i), bound, BlockCount(trace[i].bytes, trace[i].numBytes)))
  }

  lemma {:induction false} NoLinesYet(log: seq<Command>, trace: seq<Request>, bound: nat)
    ensures LineByLine(log, trace[..0], bound, [0])
  {
  }

  lemma {:induction false} WriteSizesPrefix(a: seq<Request>, b: seq<Request>, k: nat)
    requires k <= |a| && k <= |b| && forall i :: 0 <= i < k ==> a[i] == b[i]
    ensures WriteSizes(a, k) == WriteSizes(b, k)
  {
    if k > 0 { WriteSizesPrefix(a, b, k - 1); }
  }

  lemma {:induction false} LineStays(log: seq<Command>, log': seq<Command>, a: seq<Request>, b: seq<Request>, bound: nat,
                                     i: nat, lo: nat, hi: nat)
    requires LineAt(log, a, bound, i, lo, hi) && log <= log' && i < |b| && forall k :: 0 <= k <= i ==> a[k] == b[k]
    ensures LineAt(log', b, bound, i, lo, hi)
  {
    hide LineLog, Verdict;
    WriteSizesPrefix(a, b, i);
    assert log'[lo..hi] == log[lo..hi];
  }

  lemma {:induction false} VerdictSettles(history: seq<nat>, bound: nat, bound': nat, n: nat)
    requires |history| < WINDOW ==> bound == bound'
    ensures Verdict(history, bound, n) == Verdict(history, bound', n)
  {
  }

  lemma {:induction false} OneMoreLine(log: seq<Command>, log': seq<Command>, trace: seq<Request>, i: nat, bound: nat,
                                       bound': nat,
                                       cuts: seq<nat>)
    requires i < |trace| && LineByLine(log, trace[..i], bound, cuts) && cuts[i] == |log| && log <= log'
    requires |WriteSizes(trace, i)| < WINDOW ==> bound' == bound
    requires LineLog(log'[|log|..], trace[i],
                     Verdict(WriteSizes(trace, i), bound', BlockCount(trace[i].bytes, trace[i].numBytes)))
    ensures LineByLine(log', trace[..i + 1], bound, cuts + [|log'|])
  {
    hide LineLog, Verdict;
    var cuts' := cuts + [|log'|];
    VerdictSettles(WriteSizes(trace, i), bound, bound', BlockCount(trace[i].bytes, trace[i].numBytes));
    WriteSizesPrefix(trace, trace[..i + 1], i);
    assert log'[|log|..|log'|] == log'[|log|..];
    assert LineAt(log', trace[..i + 1], bound, i, cuts'[i], cuts'[i + 1]);
    forall j | 0 <= j < i ensures LineAt(log', trace[..i + 1], bound, j, cuts'[j], cuts'[j + 1]) {
      LineStays(log, log', trace[..i], trace[..i + 1], bound, j, cuts[j], cuts[j + 1]);
    }
  }

  lemma {:induction false} CutsAre(log: seq<Command>, trace: seq<Request>, bound: nat, cuts: seq<nat>)
    requires LineByLine(log, trace, bound, cuts)
    ensures |cuts| == |trace| + 1
  {
  }

  /** A longer log still falls into the stretches of the trace. */
  lemma {:induction false} LinesStay(log: seq<Command>, log': seq<Command>, trace: seq<Request>, bound: nat, cuts: seq<nat>)
    requires LineByLine(log, trace, bound, cuts) && log <= log'
    ensures LineByLine(log', trace, bound, cuts)
  {
    hide LineAt;
    forall i | 0 <= i < |trace| ensures LineAt(log', trace, bound, i, cuts[i], cuts[i + 1]) {
      LineStays(log, log', trace, trace, bound, i, cuts[i], cuts[i + 1]);
    }
  }

  lemma {:induction false} StretchOf(cuts: seq<nat>, n: nat, log: seq<Command>, trace: seq<Request>, bound: nat,
                                     k: nat) returns (i: nat)
    requires LineByLine(log, trace, bound, cuts) && n <= |trace| && k < cuts[n]
    ensures i < n && cuts[i] <= k < cuts[i + 1]
  {
    if cuts[n - 1] <= k {
      i := n - 1;
      assert LineAt(log, trace, bound, i, cuts[i], cuts[i + 1]);
    } else {
      i := StretchOf(cuts, n - 1, log, trace, bound, k);
    }
  }

  lemma {:induction false} CarrierInLine(log: seq<Command>, r: Request, t: nat, block: nat) returns (k: nat, o: nat)
    requires JournalsLine(log, r, t) && HoldsByte(block, r.bytes, r.numBytes)
    ensures Carries(log, k, o) && Carried(log, k, o) == Record(r.fid, block)
  {
    hide HoldsByte, IsPassed;
    k, o :| Carries(log, k, o) && Carried(log, k, o) == Record(r.fid, block);
  }

  /** Every block that holds a byte of a write line is journaled for its file. */
  lemma {:induction false} BlockIsJournaled(log: seq<Command>, trace: seq<Request>, bound: nat, cuts: seq<nat>, i: nat,
                                            block: nat)
    requires LineByLine(log, trace, bound, cuts) && i < |trace| && trace[i].c == 2
    requires HoldsByte(block, trace[i].bytes, trace[i].numBytes)
    ensures exists k: nat, o: nat :: Carries(log, k, o) && Carried(log, k, o) == Record(trace[i].fid, block)
  {
    hide HoldsByte, Verdict, JournalsLine, WriteSizes;
    assert LineAt(log, trace, bound, i, cuts[i], cuts[i + 1]);
    var part := log[cuts[i]..cuts[i + 1]];
    var t := Verdict(WriteSizes(trace, i), bound, BlockCount(trace[i].bytes, trace[i].numBytes));
    var k, o := CarrierInLine(part, trace[i], t, block);
    assert Carries(log, cuts[i] + k, o) && Carried(log, cuts[i] + k, o) == Record(trace[i].fid, block);
  }

  lemma {:induction false} CarriedInLine(log: seq<Command>, r: Request, t: nat, k: nat, o: nat)
    requires LineLog(log, r, t) && Carries(log, k, o)
    ensures r.c == 2 && Carried(log, k, o).fid == r.fid && HoldsByte(Carried(log, k, o).lba, r.bytes, r.numBytes)
  {
    hide HoldsByte;
  }

  /** And nothing else is journaled. */
  lemma {:induction false} CarriedIsWritten(log: seq<Command>, trace: seq<Request>, bound: nat, cuts: seq<nat>, k: nat, o: nat)
    requires LineByLine(log, trace, bound, cuts) && Carries(log, k, o) && k < cuts[|trace|]
    ensures exists i :: 0 <= i < |trace| && trace[i].c == 2 && Carried(log, k, o).fid == trace[i].fid
                        && HoldsByte(Carried(log, k, o).lba, trace[i].bytes, trace[i].numBytes)
  {
    hide LineLog, HoldsByte, Verdict, WriteSizes;
    var i := StretchOf(cuts, |trace|, log, trace, bound, k);
    assert LineAt(log, trace, bound, i, cuts[i], cuts[i + 1]);
    var part := log[cuts[i]..cuts[i + 1]];
    var t := Verdict(WriteSizes(trace, i), bound, BlockCount(trace[i].bytes, trace[i].numBytes));
    assert part[k - cuts[i]] == log[k];
    CarriedInLine(part, trace[i], t, k - cuts[i], o);
  }

  /** The records that a log journals are the blocks that hold the bytes of the write lines, each for its file. */
  ghost predicate JournalsTrace(log: seq<Command>, trace: seq<Request>) {
    && (forall i: nat, block: nat ::
          i < |trace| && trace[i].c == 2 && HoldsByte(block, trace[i].bytes, trace[i].numBytes) ==>
            exists k: nat, o: nat :: Carries(log, k, o) && Carried(log, k, o) == Record(trace[i].fid, block))
    && (forall k: nat, o: nat :: Carries(log, k, o) ==>
          exists i :: 0 <= i < |trace| && trace[i].c == 2 && Carried(log, k, o).fid == trace[i].fid
                      && HoldsByte(Carried(log, k, o).lba, trace[i].bytes, trace[i].numBytes))
  }

  lemma {:induction false} LinesJournalTrace(log: seq<Command>, trace: seq<Request>, bound: nat, cuts: seq<nat>)
    requires LineByLine(log, trace, bound, cuts)
    requires forall k :: cuts[|trace|] <= k < |log| ==> IsCheckpointing(log[k])
    ensures JournalsTrace(log, trace)
  {
    hide LineAt, HoldsByte, Carried;
    forall i: nat, block: nat | i < |trace| && trace[i].c == 2 && HoldsByte(block, trace[i].bytes, trace[i].numBytes)
      ensures exists k: nat, o: nat :: Carries(log, k, o) && Carried(log, k, o) == Record(trace[i].fid, block)
    {
      BlockIsJournaled(log, trace, bound, cuts, i, block);
    }
    forall k: nat, o: nat | Carries(log, k, o)
      ensures k < |log| && IsJournalWrite(log[k])
      ensures exists i :: 0 <= i < |trace| && trace[i].c == 2 && Carried(log, k, o).fid == trace[i].fid
                          && HoldsByte(Carried(log, k, o).lba, trace[i].bytes, trace[i].numBytes)
    {
      CarriedIsWritten(log, trace, bound, cuts, k, o);
    }
  }

  class HybridJournal {
    const zones: array<Zone>
    const limit: nat
    const window: RequestWindow
    var zoneCount: nat
    /** Every command issued to the disk. */
    var log: seq<Command>

    ghost predicate Valid()
      reads this, zones
    {
      && limit <= zones.Length && zoneCount <= limit
      && ZonesValid(zones[..], zoneCount)
      && AllTiled(zones[..], log) && AllFit(log) && Disciplined(log, limit)
      && NothingLost(zones[..], log)
    }

    /** The set-up of hybrid_parsing_csv; `memory` is whatever the slots hold when they are allocated. */
    constructor (totalBands: nat, memory: (nat, nat) -> Slot)
      ensures Valid() && fresh(zones) && fresh(window) && window.Valid() && fresh(window.sizeRecord)
      ensures zones.Length == totalBands && limit == totalBands * 10 / 100
      ensures zoneCount == 0 && |log| == |window.history| == 0
      ensures window.hotnessBound == limit / 2 * BAND_TRACKS
    {
      limit := totalBands * 10 / 100;
      window := new RequestWindow((totalBands * 10 / 100) / 2 * BAND_TRACKS);
      zones := new Zone[totalBands];
      zoneCount, log := 0, [];
      new;
      InitZones(memory);
    }

    method InitZones(memory: (nat, nat) -> Slot)
      modifies zones
      ensures ZonesValid(zones[..], 0)
      ensures forall z :: 0 <= z < zones.Length ==> zones[z].writeHead == 0
    {
      for z := 0 to zones.Length
        invariant forall i :: 0 <= i < z ==> ZoneValid(zones[i], i) && zones[i].isOffline
      {
        var slots := seq(BAND_TRACKS, i requires 0 <= i < BAND_TRACKS => memory(z, i));
        zones[z] := Zone(true, false, false, 0, z * BAND_TRACKS, 0, slots);
      }
    }

    /** The inner loop of the placement: a matching zone takes as many records of the request as it has slots for. */
    method FillSlots(z: nat, fid: nat, lba: nat, n: nat) returns (k: nat)
      requires z < zones.Length && ZoneValid(zones[z], z) && Matches(zones[z], zones[z].zoneType)
      modifies zones
      ensures var free := Capacity(old(zones[z]).zoneType) - old(zones[z]).writeHead; k == if n <= free then n else free
      ensures zones[..] == old(zones[..])[z := zones[z]]
      ensures zones[z] == Appended(old(zones[z]), fid, lba, k).(writeHead := old(zones[z]).writeHead, isFull := zones[z].isFull)
      ensures zones[z].isFull ==> old(zones[z]).writeHead + k == Capacity(old(zones[z]).zoneType)
      ensures k < n || old(zones[z]).writeHead + k == BAND_TRACKS ==> zones[z].isFull
    {
      ghost var before, zones0 := zones[z], zones[..];
      var whp := zones[z].writeHead;
      k := 0;
      while whp < BAND_TRACKS && k < n
        invariant whp == before.writeHead + k <= Capacity(before.zoneType) && k <= n
        invariant zones[..] == zones0[z := zones[z]]
        invariant zones[z] == Appended(before, fid, lba, k).(writeHead := before.writeHead, isFull := zones[z].isFull)
        invariant zones[z].isFull <==> whp == BAND_TRACKS
        decreases n - k
      {
        if zones[z].blocks[whp].isSealed {
          zones[z] := zones[z].(isFull := true);
          break;
        }
        zones[z] := zones[z].(blocks := zones[z].blocks[whp := zones[z].blocks[whp].(record := Record(fid, lba + k))]);
        k := k + 1;
        whp := whp + 1;
        if whp == BAND_TRACKS {
          zones[z] := zones[z].(isFull := true);
        }
      }
    }

    /** Filling a zone, issuing the extent and moving the write head. */
    method FillZone(z: nat, fid: nat, lba: nat, n: nat) returns (k: nat)
      requires Valid() && z < zones.Length && Matches(zones[z], zones[z].zoneType)
      modifies this`log, zones
      ensures Valid()
      ensures var free := Capacity(old(zones[z]).zoneType) - old(zones[z]).writeHead; k == if n <= free then n else free
      ensures log == old(log) + [AppendCommand(old(zones[z]), fid, lba, k)]
      ensures Effects(log) == Effects(old(log)) + Placements(fid, lba, k, old(zones[z]).zoneType)
      ensures AppendsTo(old(zones[..]), zones[..], z, fid, lba, k)
      ensures k < n ==> zones[z].isFull
    {
      hide AllTiled, AllFit, NothingLost, Effects, Disciplined;
      ghost var zones0, log0 := zones[..], log;
      k := FillSlots(z, fid, lba, n);
      log := log + [Write(zones[z].logicalLba + zones[z].writeHead, k, fid, Journal(lba, zones[z].zoneType))];
      zones[z] := zones[z].(writeHead := zones[z].writeHead + k);
      AppendKeepsRecords(zones0, zones[..], zoneCount, z, fid, lba, k);
      AppendLosesNothing(zones0, zones[..], zoneCount, z, fid, lba, k, log0);
      AppendKeepsTiling(zones0, zones[..], zoneCount, z, fid, lba, k, log0);
      AppendIsDisciplined(zones0, zones[..], zoneCount, limit, z, fid, lba, k);
      DisciplinedMore(log0, [AppendCommand(zones0[z], fid, lba, k)], limit);
    }

    /** One pass over the zones: those that match take what they can, the others stay as they are. */
    method FillPass(fid: nat, lba: nat, n: nat, mode: nat) returns (k: nat)
      requires Valid()
      modifies this`log, zones
      ensures Valid() && k <= n
      ensures old(log) <= log && Effects(log) == Effects(old(log)) + Placements(fid, lba, k, mode)
      ensures forall z :: 0 <= z < zones.Length && !Matches(old(zones[z]), mode) ==> zones[z] == old(zones[z])
      ensures forall i :: |old(log)| <= i < |log| ==> IsJournalWrite(log[i])
      ensures k < n ==> !HasRoom(zones[..], limit, mode)
      ensures n > 0 && HasRoom(old(zones[..]), limit, mode) ==> k > 0
      ensures limit == 0 ==> k == 0 && zones[..] == old(zones[..]) && log == old(log)
    {
      hide AllTiled, AllFit, NothingLost, Effects, Placements, Disciplined;
      NoPlacements(Effects(log), fid, lba, mode);
      k := 0;
      for z := 0 to limit
        invariant Valid() && k <= n
        invariant old(log) <= log && Effects(log) == Effects(old(log)) + Placements(fid, lba, k, mode)
        invariant forall i :: |old(log)| <= i < |log| ==> IsJournalWrite(log[i])
        invariant forall i :: 0 <= i < zones.Length && (i >= z || !Matches(old(zones[i]), mode)) ==> zones[i] == old(zones[i])
        invariant k < n ==> forall i :: 0 <= i < z ==> !Matches(zones[i], mode)
        invariant k == 0 < n ==> forall i :: 0 <= i < z && Matches(old(zones[i]), mode) ==> old(zones[i]).writeHead == Capacity(mode)
        invariant limit == 0 ==> k == 0 && zones[..] == old(zones[..]) && log == old(log)
      {
        if Matches(zones[z], mode) {
          var more := FillZone(z, fid, lba + k, n - k);
          PlacementsMore(Effects(old(log)), fid, lba, k, more, mode);
          k := k + more;
        }
        if n <= k {
          break;
        }
      }
    }

    /** Seals the slots a conventional zone must not use, and opens all others. */
    method SealSlots(z: nat, mode: nat)
      requires z < zones.Length && |zones[z].blocks| == BAND_TRACKS
      modifies zones
      ensures zones[..] == old(zones[..])[z := zones[z]]
      ensures zones[z] == old(zones[z]).(blocks := zones[z].blocks) && |zones[z].blocks| == BAND_TRACKS
      ensures forall i :: 0 <= i < BAND_TRACKS ==> (zones[z].blocks[i].isSealed <==> mode == 0 && i >= CMR_TRACKS)
      ensures forall i :: 0 <= i < BAND_TRACKS ==> zones[z].blocks[i].record == old(zones[z]).blocks[i].record
    {
      ghost var before, zones0 := zones[z], zones[..];
      for i := 0 to BAND_TRACKS
        invariant zones[..] == zones0[z := zones[z]]
        invariant zones[z] == before.(blocks := zones[z].blocks) && |zones[z].blocks| == BAND_TRACKS
        invariant forall j :: 0 <= j < i ==> (zones[z].blocks[j].isSealed <==> mode == 0 && j >= CMR_TRACKS)
        invariant forall j :: 0 <= j < BAND_TRACKS ==> zones[z].blocks[j].record == before.blocks[j].record
      {
        var slot := zones[z].blocks[i].(isSealed := mode == 0 && i >= CMR_TRACKS);
        zones[z] := zones[z].(blocks := zones[z].blocks[i := slot]);
      }
    }

    /** The first offline zone goes online for the journal. */
    method OpenZone(mode: nat)
      requires Valid() && mode <= 1 && zoneCount < limit
      modifies this`zoneCount, zones
      ensures Valid() && zoneCount == old(zoneCount) + 1
      ensures zones[..] == old(zones[..])[old(zoneCount) := zones[old(zoneCount)]]
      ensures Matches(zones[old(zoneCount)], mode) && zones[old(zoneCount)].writeHead == 0
    {
      ghost var zones0, first := zones[..], zoneCount;
      var z: nat := 0;
      while !zones[z].isOffline
        invariant z <= zoneCount
        decreases zoneCount - z
      {
        z := z + 1;
      }
      zones[z] := zones[z].(isOffline := false, isJournaling := true, zoneType := mode);
      SealSlots(z, mode);
      zoneCount := zoneCount + 1;
      assert zones[..] == zones0[first := zones[first]];
      assert forall y: nat, j: nat, r, t: nat :: HoldsAt(zones0, y, j, r, t) ==> HoldsAt(zones[..], y, j, r, t);
      OthersLoseNothing(zones0, log, zones[..], []);
      assert log + [] == log;
    }

    /** The inner loop of do_checkpoint: every slot of a zone is read back and written home. */
    method SendHome(z: nat)
      requires z < zones.Length
      modifies this`log
      ensures log == old(log) + ZoneLog(zones[z].blocks)
    {
      for i := 0 to |zones[z].blocks|
        invariant log == old(log) + SlotLog(zones[z].blocks, i)
      {
        var r := zones[z].blocks[i].record;
        log := log + [Read(r.lba, 1, r.fid, Home)];
        log := log + [Write(r.lba, 1, r.fid, Home)];
      }
    }

    /** The outer loop of do_checkpoint. */
    method ResetZones()
      requires limit <= zones.Length
      modifies this`log, this`zoneCount, zones
      ensures zones[..] == ResetFirst(old(zones[..]), limit)
      ensures log == old(log) + CheckpointLog(old(zones[..]), limit)
      ensures zoneCount == DecrementBy(old(zoneCount), limit)
    {
      hide ResetFirst, CheckpointLog, ZoneLog;
      ResetNone(zones[..]);
      for z := 0 to limit
        invariant zones[..] == ResetFirst(old(zones[..]), z)
        invariant log == old(log) + CheckpointLog(old(zones[..]), z)
        invariant zoneCount == DecrementBy(old(zoneCount), z)
      {
        ResetMore(old(zones[..]), z, old(log));
        SendHome(z);
        zones[z] := Reset(zones[z]);
        zoneCount := Decrement(zoneCount);
      }
    }

    /** do_checkpoint: every record goes home, every zone up to the limit goes offline, and the count wraps if it must. */
    method DoCheckpoint()
      requires Valid()
      modifies this`log, this`zoneCount, zones
      ensures zones[..] == ResetFirst(old(zones[..]), limit)
      ensures log == old(log) + CheckpointLog(old(zones[..]), limit)
      ensures zoneCount == DecrementBy(old(zoneCount), limit)
      ensures AllHome(log) && AllFit(log) && Disciplined(log, limit) && Effects(log) == Effects(old(log))
      ensures ZonesValid(zones[..], 0)
      ensures old(log) <= log && forall k :: |old(log)| <= k < |log| ==> IsCheckpointing(log[k])
      ensures old(zoneCount) == limit ==> Valid() && zoneCount == 0
    {
      hide AllTiled, AllFit, NothingLost, Effects, AllHome, Disciplined;
      CheckpointEmptiesJournal(zones[..], zoneCount, limit, log);
      CheckpointIsDisciplined(zones[..], limit, limit);
      CheckpointLogIsCheckpointing(zones[..], limit);
      DisciplinedMore(log, CheckpointLog(zones[..], limit), limit);
      ResetZones();
      DecrementIsExact(limit, limit);
    }

    /**
      One turn of the placement loop: fill what matches, then, if something is left over, open a zone, or checkpoint when
      all zones are online already. It places a record or
      brings the next placement closer; with a limit of 0 it changes nothing at all, so the loop never ends.
     */
    method CommitRound(fid: nat, lba: nat, n: nat, mode: nat) returns (k: nat)
      requires Valid() && mode <= 1 && n > 0
      modifies this`log, this`zoneCount, zones
      ensures Valid() && k <= n
      ensures old(log) <= log && Effects(log) == Effects(old(log)) + Placements(fid, lba, k, mode)
      ensures k > 0 || limit == 0
              || Rank(zones[..], limit, zoneCount, mode) < Rank(old(zones[..]), limit, old(zoneCount), mode)
      ensures limit == 0 ==> k == 0 && zones[..] == old(zones[..]) && log == old(log) && zoneCount == old(zoneCount)
      ensures k == n ==> zoneCount == old(zoneCount)
      ensures k < n && old(zoneCount) < limit ==> zoneCount == old(zoneCount) + 1
      ensures k == n || old(zoneCount) < limit ==> forall i :: |old(log)| <= i < |log| ==> IsJournalWrite(log[i])
      ensures k < n && old(zoneCount) >= limit ==> ZonesValid(zones[..], 0) && zoneCount == 0
    {
      k := FillPass(fid, lba, n, mode);
      if k < n && zoneCount < limit {
        OpenZone(mode);
        assert zones[..][zoneCount - 1] == zones[zoneCount - 1];
      } else if k < n && zoneCount >= limit {
        DoCheckpoint();
      }
    }

    /** Placing the records of a write: every one of them is journaled, once and in order, and the loop ends. */
    method Commit(fid: nat, lba: nat, n: nat, mode: nat)
      requires Valid() && mode <= 1
      requires limit >= 1 || n == 0
      modifies this`log, this`zoneCount, zones
      ensures Valid()
      ensures old(log) <= log && Effects(log) == Effects(old(log)) + Placements(fid, lba, n, mode)
    {
      hide *;
      NoPlacements(Effects(log), fid, lba, mode);
      LimitInRange();
      var done := 0;
      while n - done > 0
        invariant Valid() && done <= n && limit <= zones.Length
        invariant old(log) <= log && Effects(log) == Effects(old(log)) + Placements(fid, lba, done, mode)
        decreases n - done, Rank(zones[..], limit, zoneCount, mode)
      {
        var k := CommitRound(fid, lba + done, n - done, mode);
        PlacementsMore(Effects(old(log)), fid, lba, done, k, mode);
        done := done + k;
      }
    }

    lemma {:induction false} LimitInRange()
      requires Valid()
      ensures limit <= zones.Length
    {
    }

    /** A command that goes to the disk past the journal. */
    method Issue(c: Command)
      requires Valid() && IsPassed(c)
      modifies this`log
      ensures Valid() && log == old(log) + [c] && Effects(log) == Effects(old(log)) + [Passed(c)]
    {
      hide AllTiled, AllFit, NothingLost, Effects, ZonesValid, Disciplined;
      PassedIsDisciplined(c, limit);
      DisciplinedMore(log, [c], limit);
      OtherCommandKeepsTiling(zones[..], log, c);
      OthersStillFit(log, [c]);
      PassedIsEffect(log, c);
      OthersLoseNothing(zones[..], log, zones[..], [c]);
      log := log + [c];
    }

    /** One line of the trace. */
    method Serve(r: Request)
      requires Valid() && window.Valid()
      requires limit >= 1 || !WritesBlocks(r)
      modifies this`log, this`zoneCount, zones, window, window.sizeRecord
      ensures Valid() && window.Valid()
      ensures old(log) <= log && Effects(log) == Effects(old(log)) + EffectOf(old(window.history), old(window.hotnessBound), r)
      ensures LineLog(log[|old(log)|..], r, Verdict(old(window.history), old(window.hotnessBound), BlockCount(r.bytes, r.numBytes)))
      ensures r.c == 2 ==> window.history == old(window.history) + [BlockCount(r.bytes, r.numBytes)]
      ensures r.c != 2 ==> window.history == old(window.history) && zones[..] == old(zones[..])
      ensures |old(window.history)| < WINDOW ==> window.hotnessBound == old(window.hotnessBound)
    {
      hide Valid, Effects, Placements, FirstBlock, BlockCount, JournalsLine, IsRangeOf, Verdict, LineLog, Sum, Recent;
      var lba, n := FirstBlock(r.bytes), BlockCount(r.bytes, r.numBytes);
      ghost var log0, t := log, Verdict(window.history, window.hotnessBound, n);
      if r.c == 1 {
        Issue(Read(lba, n, r.fid, Purpose.Request));
        LinePassesOn(log0, log, r, t, Read(lba, n, r.fid, Purpose.Request));
      } else if r.c == 2 {
        var mode := window.DetermineCommitType(n);
        Commit(r.fid, lba, n, mode);
        LineComesTo(log0, log, r, mode);
        LineIsJournaled(log[|log0|..], r, mode);
      } else if r.c == 3 {
        Issue(Remove(lba, n, r.fid));
        LinePassesOn(log0, log, r, t, Remove(lba, n, r.fid));
      } else {
        LineIsIgnored(log, r, t);
      }
    }

    /** All lines of the trace. */
    method ServeAll(trace: seq<Request>) returns (ghost cuts: seq<nat>)
      requires Valid() && window.Valid() && |log| == |window.history| == 0
      requires limit >= 1 || forall i :: 0 <= i < |trace| ==> !WritesBlocks(trace[i])
      modifies this`log, this`zoneCount, zones, window, window.sizeRecord
      ensures Valid() && window.Valid()
      ensures Effects(log) == TraceEffects(trace, |trace|, old(window.hotnessBound))
      ensures LineByLine(log, trace, old(window.hotnessBound), cuts) && cuts[|trace|] == |log|
    {
      assert |Effects(log)| == 0;
      hide *;
      NoEffectsYet(trace, window.hotnessBound);
      NoLinesYet(log, trace, window.hotnessBound);
      cuts := [0];
      for i := 0 to |trace|
        invariant Valid() && window.Valid()
        invariant window.history == WriteSizes(trace, i)
        invariant |window.history| < WINDOW ==> window.hotnessBound == old(window.hotnessBound)
        invariant Effects(log) == TraceEffects(trace, i, old(window.hotnessBound))
        invariant |cuts| == i + 1 && cuts[i] == |log| && LineByLine(log, trace[..i], old(window.hotnessBound), cuts)
      {
        ghost var log0, bound := log, window.hotnessBound;
        EffectsStep(trace, i, old(window.hotnessBound), bound);
        Serve(trace[i]);
        OneMoreLine(log0, log, trace, i, old(window.hotnessBound), bound, cuts);
        cuts := cuts + [|log|];
      }
      assert trace[..|trace|] == trace;
    }
  }

  /**
    A whole trace and the final checkpoint, read off the log of commands alone. The log falls into one stretch per line
    and a rest: for a read or delete the stretch is that command, for a write its journal writes carry the blocks of its
    bytes, each once and in order, for the zone type the predictor chose; the rest puts records home. Each journal write
    lands behind what its zone got since the last checkpoint, within the area of the journal, and every record goes home,
    read back right before, by a write issued after its journal write. With fewer than ten bands the journal has no zone,
    and a trace with a write would never end.
   */
  method ParsingCsv(totalBands: nat, memory: (nat, nat) -> Slot, trace: seq<Request>)
    returns (j: HybridJournal, ghost cuts: seq<nat>)
    requires totalBands * 10 / 100 >= 1 || forall i :: 0 <= i < |trace| ==> !WritesBlocks(trace[i])
    ensures JournalsTrace(j.log, trace)
    ensures LineByLine(j.log, trace, totalBands * 10 / 100 / 2 * BAND_TRACKS, cuts)
    ensures forall k :: cuts[|trace|] <= k < |j.log| ==> IsCheckpointing(j.log[k])
    ensures AllHome(j.log) && AllFit(j.log) && Disciplined(j.log, totalBands * 10 / 100)
    ensures Effects(j.log) == TraceEffects(trace, |trace|, totalBands * 10 / 100 / 2 * BAND_TRACKS)
    ensures ZonesValid(j.zones[..], 0) && |j.zones[..]| == totalBands
  {
    hide *;
    j := new HybridJournal(totalBands, memory);
    cuts := j.ServeAll(trace);
    ghost var log0, bound := j.log, totalBands * 10 / 100 / 2 * BAND_TRACKS;
    CutsAre(log0, trace, bound, cuts);
    j.DoCheckpoint();
    LinesStay(log0, j.log, trace, bound, cuts);
    LinesJournalTrace(j.log, trace, bound, cuts);
  }
}
