/** The simulated disk: the request pipeline of src/lba.c, src/pba.c, src/chs.c, src/batch.c and src/record_op.c. */
module SmrDisk {
  import opened Geometry
  import opened Ascending
  import opened Batch
  import opened Bands
  import opened Runs
  import opened Ownership
  import opened DiskState
  import opened Reporting

  /** The bands after the planner has seen a write batch; the CMR build plans nothing. */
  function BandsAfterWrite(build: Build, bands: seq<Band>, tracks: seq<nat>): seq<Band>
    requires OnDisk(|bands|, tracks)
  {
    if build == CMR then bands else TouchAll(build == FluidSMR, bands, tracks)
  }

  /** The list a write batch is charged for. */
  function WriteList(build: Build, bands: seq<Band>, live: set<nat>, tracks: seq<nat>): seq<Entry>
    requires OnDisk(|bands|, tracks)
  {
    if build == CMR then Physical(tracks)
    else if build == FluidSMR then FluidPlan(bands, live, tracks)
    else Plan(build == NativeA, bands, live, tracks)
  }

  /** The list a delete batch is charged for; every build plans it with batch_extend. */
  function DeleteList(build: Build, bands: seq<Band>, live: set<nat>, tracks: seq<nat>): seq<Entry>
    requires OnDisk(|bands|, tracks)
  {
    if build == CMR then Physical(tracks) else Plan(build == NativeA, bands, live, tracks)
  }

  lemma {:induction false} ListPhysicalCount(build: Build, bands: seq<Band>, live: set<nat>, tracks: seq<nat>)
    requires OnDisk(|bands|, tracks)
    ensures CountPhysical(WriteList(build, bands, live, tracks)) == |tracks|
    ensures CountPhysical(DeleteList(build, bands, live, tracks)) == |tracks|
  {
    CountPhysicalUniform(Physical(tracks), false);
    PlanPhysicalCount(build == NativeA, bands, live, tracks);
    FluidPlanPhysicalCount(bands, live, tracks);
  }

  /** What a read on the disk is charged. */
  ghost predicate ReadCharges(m: Owners, t0: Totals, t: Totals, lba: nat, n: nat, fid: nat) {
    var owned := Owned(m, lba, n, fid);
    if owned == {} then t == t0 else IsSum(t, t0, Tally(SplitRuns(Physical(Between(owned, lba, lba + n)))))
  }

  /** How a write on the disk moves the bands. */
  ghost predicate WriteMoves(build: Build, m: Owners, bands0: seq<Band>, bands: seq<Band>, lba: nat, n: nat, fid: nat) {
    var claimed := Claimable(m, lba, n, fid);
    var tracks := Between(claimed, lba, lba + n);
    if claimed == {} then bands == bands0
    else OnDisk(|bands0|, tracks) && bands == BandsAfterWrite(build, bands0, tracks)
  }

  /** What a write on the disk is charged: the runs of the planned list, live tracks being those owned afterwards. */
  ghost predicate WriteCharges(build: Build, m: Owners, bands0: seq<Band>, t0: Totals, t: Totals, lba: nat, n: nat, fid: nat) {
    var claimed := Claimable(m, lba, n, fid);
    var tracks := Between(claimed, lba, lba + n);
    if claimed == {} then t == t0
    else OnDisk(|bands0|, tracks) && IsSum(t, t0, Tally(SplitRuns(WriteList(build, bands0, m.Keys + claimed, tracks))))
  }

  /** How a delete moves the bands. */
  ghost predicate DeleteMoves(m: Owners, bands0: seq<Band>, bands: seq<Band>, blocks: nat, fid: nat) {
    var tracks := Between(OwnedBy(m, fid), 0, blocks);
    if OwnedBy(m, fid) == {} then bands == bands0
    else OnDisk(|bands0|, tracks) && bands == TouchAll(false, bands0, tracks)
  }

  /** What a delete is charged. */
  ghost predicate DeleteCharges(build: Build, m: Owners, bands0: seq<Band>, t0: Totals, t: Totals, blocks: nat, fid: nat) {
    var tracks := Between(OwnedBy(m, fid), 0, blocks);
    if OwnedBy(m, fid) == {} then t == t0
    else OnDisk(|bands0|, tracks) && IsSum(t, t0, Tally(SplitRuns(DeleteList(build, bands0, m.Keys, tracks))))
  }

  // ----- requests, told address by address ----------------------------------------------

  lemma {:induction false} ReplannedByNothing(before: Band, after: Band)
    requires Replanned(before, after, {})
    ensures after == before
  {
  }

  lemma {:induction false} MovedByRange(skipCMR: bool, bands: seq<Band>, s: set<nat>, lo: nat, hi: nat, b: nat, mine: set<nat>)
    requires b < |bands| && OnDisk(|bands|, Between(s, lo, hi)) && forall l :: l in s ==> lo <= l < hi
    requires forall l :: l in mine <==> l in s && BandOf(l) == b
    ensures var after := TouchAll(skipCMR, bands, Between(s, lo, hi))[b];
      if skipCMR && bands[b].flagCMR then after == bands[b] else Replanned(bands[b], after, mine)
  {
    hide TouchAll, Replanned, Between, OnDisk;
    var tracks := Between(s, lo, hi);
    BetweenMembers(s, lo, hi);
    assert Touched(skipCMR, bands, tracks, b) == if skipCMR && bands[b].flagCMR then {} else mine;
    TouchAllEffect(skipCMR, bands, tracks, b);
    if skipCMR && bands[b].flagCMR { ReplannedByNothing(bands[b], TouchAll(skipCMR, bands, tracks)[b]); }
  }

  /**
    Where a write takes the heads and windows of the bands: those of band `b` move by the free and own addresses of the
    range in it, unless the build or the band is a conventional one.
   */
  lemma {:induction false} WriteMovesExactly(build: Build, m: Owners, bands0: seq<Band>, bands: seq<Band>,
                                             lba: nat, n: nat, fid: nat, b: nat, mine: set<nat>)
    requires WriteMoves(build, m, bands0, bands, lba, n, fid) && b < |bands0|
    requires forall l :: l in mine <==> lba <= l < lba + n && (l in m ==> m[l] == fid) && BandOf(l) == b
    ensures |bands| == |bands0|
    ensures if build == CMR || (build == FluidSMR && bands0[b].flagCMR) then bands[b] == bands0[b]
            else Replanned(bands0[b], bands[b], mine)
  {
    var claimed := Claimable(m, lba, n, fid);
    assert forall l :: l in mine <==> l in claimed && BandOf(l) == b;
    hide Replanned, TouchAll, Between, OnDisk, Touched, BandOf, Claimable, WellPlaced;
    if claimed == {} {
      assert mine == {};
      ReplannedNone(bands0[b], mine);
    } else if build == FluidSMR {
      MovedByRange(true, bands0, claimed, lba, lba + n, b, mine);
    } else if build != CMR {
      MovedByRange(false, bands0, claimed, lba, lba + n, b, mine);
    }
  }

  /** A delete moves heads and windows by the tracks of its file, in every build. */
  lemma {:induction false} DeleteMovesExactly(m: Owners, bands0: seq<Band>, bands: seq<Band>, blocks: nat, fid: nat,
                                              b: nat, mine: set<nat>)
    requires DeleteMoves(m, bands0, bands, blocks, fid) && b < |bands0| && forall l :: l in m ==> l < blocks
    requires forall l :: l in mine <==> l in m && m[l] == fid && BandOf(l) == b
    ensures |bands| == |bands0| && Replanned(bands0[b], bands[b], mine)
  {
    var owned := OwnedBy(m, fid);
    assert forall l :: l in mine <==> l in owned && BandOf(l) == b;
    hide Replanned, TouchAll, Between, OnDisk, Touched, BandOf, WellPlaced;
    if owned == {} {
      assert mine == {};
      ReplannedNone(bands0[b], mine);
    } else {
      MovedByRange(false, bands0, owned, 0, blocks, b, mine);
    }
  }

  /** What is rewritten around a batch: the live tracks past the windows, and in NATIVE_A also those before them. */
  ghost function Rewritten(build: Build, bands: seq<Band>, live: set<nat>): nat {
    if build == CMR then 0
    else |set l | l in live && InTail(bands, live, l)|
         + if build == NativeA then |set l | l in live && InFront(bands, live, l)| else 0
  }

  lemma {:induction false} PlanIsCharged(build: Build, bands0: seq<Band>, live: set<nat>, tracks: seq<nat>, t: Totals)
    requires build != CMR && WellPlaced(bands0) && StrictlyAscending(tracks) && OnDisk(|bands0|, tracks)
    requires t == Tally(SplitRuns(Plan(build == NativeA, bands0, live, tracks)))
    ensures t.direct == |tracks| && t.rewrite == Rewritten(build, TouchAll(false, bands0, tracks), live)
  {
    hide SplitRuns, Tally, Plan, CountPhysical, TouchAll, WellPlaced;
    var p, after := Plan(build == NativeA, bands0, live, tracks), TouchAll(false, bands0, tracks);
    WriteIsPhysicalSize(p);
    PlanPhysicalCount(build == NativeA, bands0, live, tracks);
    PlanLength(build == NativeA, bands0, live, tracks);
    assert TailSet(after, live) == set l | l in live && InTail(after, live, l);
    assert FrontSet(after, live) == set l | l in live && InFront(after, live, l);
  }

  lemma {:induction false} NothingRewritten(bands: seq<Band>, live: set<nat>)
    ensures Rewritten(CMR, bands, live) == 0
  {
  }

  lemma {:induction false} WriteListIsCharged(build: Build, bands0: seq<Band>, live: set<nat>, tracks: seq<nat>)
    requires WellPlaced(bands0) && StrictlyAscending(tracks) && OnDisk(|bands0|, tracks)
    ensures var t := Tally(SplitRuns(WriteList(build, bands0, live, tracks)));
      t.direct == |tracks| && (build != FluidSMR ==> t.rewrite == Rewritten(build, BandsAfterWrite(build, bands0, tracks), live))
  {
    hide SplitRuns, Tally, Plan, FluidPlan, CountPhysical, TouchAll, WellPlaced, Rewritten;
    ListPhysicalCount(build, bands0, live, tracks);
    WriteIsPhysicalSize(WriteList(build, bands0, live, tracks));
    if build == CMR {
      PhysicalListTally(Physical(tracks));
      NothingRewritten(bands0, live);
    } else if build != FluidSMR {
      PlanIsCharged(build, bands0, live, tracks, Tally(SplitRuns(Plan(build == NativeA, bands0, live, tracks))));
    }
  }

  lemma {:induction false} ClaimedIsCharged(build: Build, m: Owners, bands0: seq<Band>, bands: seq<Band>, t0: Totals, t: Totals,
                                            lba: nat, n: nat, fid: nat)
    requires WellPlaced(bands0) && WriteMoves(build, m, bands0, bands, lba, n, fid)
    requires WriteCharges(build, m, bands0, t0, t, lba, n, fid) && Claimable(m, lba, n, fid) != {}
    ensures var claimed := Claimable(m, lba, n, fid);
      t.direct == t0.direct + |claimed|
      && (build != FluidSMR ==> t.rewrite == t0.rewrite + Rewritten(build, bands, m.Keys + claimed))
  {
    hide SplitRuns, Tally, WriteList, BandsAfterWrite, WellPlaced, Rewritten, Between, OnDisk;
    var claimed := Claimable(m, lba, n, fid);
    BetweenMembers(claimed, lba, lba + n);
    BetweenCardinality(claimed, lba, lba + n);
    WriteListIsCharged(build, bands0, m.Keys + claimed, Between(claimed, lba, lba + n));
  }

  /**
    What a write is charged: each free or own address of the range once as written, and in the native builds, if there is
    one at all, what must be rewritten around them once as rewritten.
   */
  lemma {:induction false} WriteChargesExactly(build: Build, m: Owners, bands0: seq<Band>, bands: seq<Band>, t0: Totals,
                                               t: Totals,
                                               lba: nat, n: nat, fid: nat, mine: set<nat>)
    requires WellPlaced(bands0) && WriteMoves(build, m, bands0, bands, lba, n, fid)
    requires WriteCharges(build, m, bands0, t0, t, lba, n, fid)
    requires forall l :: l in mine <==> lba <= l < lba + n && (l in m ==> m[l] == fid)
    ensures t.direct == t0.direct + |mine| && (mine == {} ==> t == t0)
    ensures build != FluidSMR && mine != {} ==> t.rewrite == t0.rewrite + Rewritten(build, bands, m.Keys + mine)
  {
    assert mine == Claimable(m, lba, n, fid);
    hide WriteMoves, WellPlaced, Rewritten, Claimable;
    if mine != {} {
      ClaimedIsCharged(build, m, bands0, bands, t0, t, lba, n, fid);
    }
  }

  /** What a delete is charged: each track of its file once, and what must be rewritten around them. */
  lemma {:induction false} DeleteChargesExactly(build: Build, m: Owners, bands0: seq<Band>, bands: seq<Band>, t0: Totals,
                                                t: Totals,
                                                blocks: nat, fid: nat, own: set<nat>)
    requires WellPlaced(bands0) && DeleteMoves(m, bands0, bands, blocks, fid) && forall l :: l in m ==> l < blocks
    requires DeleteCharges(build, m, bands0, t0, t, blocks, fid)
    requires forall l :: l in own <==> l in m && m[l] == fid
    ensures t.direct == t0.direct + |own| && (own == {} ==> t == t0)
    ensures own != {} ==>
              t.rewrite == t0.rewrite + Rewritten(if build == FluidSMR then NativeB else build, bands, m.Keys)
  {
    hide SplitRuns, Tally, Plan, CountPhysical, TouchAll, WellPlaced, Rewritten;
    var owned := OwnedBy(m, fid);
    assert own == owned;
    if owned != {} {
      var tracks := Between(owned, 0, blocks);
      BetweenMembers(owned, 0, blocks);
      BetweenCardinality(owned, 0, blocks);
      ListPhysicalCount(build, bands0, m.Keys, tracks);
      WriteIsPhysicalSize(DeleteList(build, bands0, m.Keys, tracks));
      if build == CMR {
        PhysicalListTally(Physical(tracks));
        NothingRewritten(bands, m.Keys);
      } else {
        var native := if build == FluidSMR then NativeB else build;
        PlanIsCharged(native, bands0, m.Keys, tracks, Tally(SplitRuns(Plan(native == NativeA, bands0, m.Keys, tracks))));
      }
    }
  }

  /** What a read is charged: each own address of the range once, and nothing else. */
  lemma {:induction false} ReadChargesExactly(m: Owners, t0: Totals, t: Totals, lba: nat, n: nat, fid: nat, own: set<nat>)
    requires ReadCharges(m, t0, t, lba, n, fid)
    requires forall l :: l in own <==> lba <= l < lba + n && l in m && m[l] == fid
    ensures t.direct == t0.direct + |own| && (own == {} ==> t == t0)
    ensures t.virtualRuns == t0.virtualRuns && t.rewrite == t0.rewrite && t.reread == t0.reread
  {
    hide SplitRuns, Tally;
    var owned := Owned(m, lba, n, fid);
    assert own == owned;
    if owned != {} {
      BetweenCardinality(owned, lba, lba + n);
      PhysicalListTally(Physical(Between(owned, lba, lba + n)));
    }
  }

  /** A write that is refused everywhere. */
  lemma {:induction false} NothingClaimed(build: Build, m: Owners, bands: seq<Band>, t: Totals, lba: nat, n: nat, fid: nat)
    requires Claimable(m, lba, n, fid) == {}
    ensures WriteMoves(build, m, bands, bands, lba, n, fid) && WriteCharges(build, m, bands, t, t, lba, n, fid)
    ensures Claim(m, {}, fid) == m
  {
  }

  /** The claimed tracks of a linked range are booked or in use. */
  lemma {:induction false} ClaimedIsInUse(st0: seq<Block>, lt0: seq<LtpEntry>, st: seq<Block>, lt: seq<LtpEntry>,
                   claimed: set<nat>, lba: nat, n: nat, fid: nat)
    requires Mapped(st0, lt0) && Linked(st0, lt0, st, lt, claimed, lba + n, fid)
    requires claimed == Claimable(OwnersOf(lt0), lba, n, fid) && lba + n <= |st|
    ensures forall l :: l in claimed ==> lba <= l < lba + n && StorageIsInUse(st[l])
    ensures Live(st) == OwnersOf(lt0).Keys + claimed
  {
    LinkedIsLive(st0, lt0, st, lt, claimed, lba + n, fid);
    LiveIsOwned(st0, lt0);
  }

  lemma {:induction false} AllInUse(st: seq<Block>, claimed: set<nat>, lo: nat, hi: nat)
    requires forall l :: l in claimed ==> lo <= l < hi && l < |st| && StorageIsInUse(st[l])
    ensures var tracks := Between(claimed, lo, hi);
      && |tracks| == |claimed| && StrictlyAscending(tracks)
      && forall i :: 0 <= i < |tracks| ==> tracks[i] < |st| && StorageIsInUse(st[tracks[i]])
  {
    var tracks := Between(claimed, lo, hi);
    BetweenMembers(claimed, lo, hi);
    BetweenCardinality(claimed, lo, hi);
    forall i | 0 <= i < |tracks| ensures tracks[i] < |st| && StorageIsInUse(st[tracks[i]]) { assert tracks[i] in tracks; }
  }

  /** A linked batch meets the demands of batch_write. */
  lemma {:induction false} BatchReady(st0: seq<Block>, lt0: seq<LtpEntry>, st: seq<Block>, lt: seq<LtpEntry>,
                   claimed: set<nat>, lba: nat, n: nat, fid: nat, bandCount: nat)
    requires Mapped(st0, lt0) && Linked(st0, lt0, st, lt, claimed, lba + n, fid)
    requires claimed == Claimable(OwnersOf(lt0), lba, n, fid) && lba + n <= |st| == bandCount * BAND_TRACKS
    ensures var tracks := Between(claimed, lba, lba + n);
      && |tracks| == |claimed| && StrictlyAscending(tracks) && OnDisk(bandCount, tracks)
      && (forall i :: 0 <= i < |tracks| ==> tracks[i] < |st| && StorageIsInUse(st[tracks[i]]))
    ensures Live(st) == OwnersOf(lt0).Keys + claimed
  {
    hide *;
    var tracks := Between(claimed, lba, lba + n);
    ClaimedIsInUse(st0, lt0, st, lt, claimed, lba, n, fid);
    BelowEndIsOnDisk(bandCount, claimed, lba, lba + n);
    AllInUse(st, claimed, lba, lba + n);
  }

  lemma {:induction false} WriteKeepsBands(build: Build, bands: seq<Band>, claimed: set<nat>, lba: nat, n: nat, live: set<nat>)
    requires forall l :: l in claimed ==> lba <= l < lba + n
    requires OnDisk(|bands|, Between(claimed, lba, lba + n))
    requires WellPlaced(bands) && (build != CMR ==> Dominated(bands, live))
    ensures var after := BandsAfterWrite(build, bands, Between(claimed, lba, lba + n));
      WellPlaced(after) && (build != CMR ==> Dominated(after, live + claimed))
  {
    var tracks := Between(claimed, lba, lba + n);
    BetweenMembers(claimed, lba, lba + n);
    TouchAllWellPlaced(build == FluidSMR, bands, tracks);
    if build != CMR {
      TouchAllDominated(build == FluidSMR, bands, tracks, live);
      assert Elements(tracks) == claimed;
    }
  }

  /** A committed batch leaves the tables consistent, the bands well placed and every live track dominated. */
  lemma {:induction false} WriteKeepsTables(build: Build, st0: seq<Block>, lt0: seq<LtpEntry>, st1: seq<Block>,
                                            lt: seq<LtpEntry>, st: seq<Block>,
                         bands: seq<Band>, claimed: set<nat>, lba: nat, n: nat, fid: nat)
    requires Mapped(st0, lt0) && Linked(st0, lt0, st1, lt, claimed, lba + n, fid)
    requires claimed == Claimable(OwnersOf(lt0), lba, n, fid) && lba + n <= |st0|
    requires var tracks := Between(claimed, lba, lba + n); OnDisk(|bands|, tracks) && Written(st1, st, tracks, |tracks|)
    requires WellPlaced(bands) && (build != CMR ==> Dominated(bands, Live(st0)))
    ensures Mapped(st, lt) && OwnersOf(lt) == Claim(OwnersOf(lt0), claimed, fid)
    ensures var after := BandsAfterWrite(build, bands, Between(claimed, lba, lba + n));
      WellPlaced(after) && (build != CMR ==> Dominated(after, Live(st)))
  {
    var tracks := Between(claimed, lba, lba + n);
    BetweenMembers(claimed, lba, lba + n);
    WriteRefinesClaim(st0, lt0, st1, lt, st, claimed, tracks, lba + n, fid);
    WriteKeepsBands(build, bands, claimed, lba, n, Live(st0));
  }

  /** The blocks of a file meet the demands of batch_delete. */
  lemma {:induction false} DeleteReady(st: seq<Block>, lt: seq<LtpEntry>, owned: set<nat>, fid: nat, bandCount: nat)
    requires Mapped(st, lt) && owned == OwnedBy(OwnersOf(lt), fid) && |st| == bandCount * BAND_TRACKS
    ensures var tracks := Between(owned, 0, |st|);
      && |tracks| == |owned| && StrictlyAscending(tracks) && OnDisk(bandCount, tracks)
      && (forall i :: 0 <= i < |tracks| ==> tracks[i] < |st| && lt[tracks[i]].valid)
    ensures Live(st) == OwnersOf(lt).Keys
  {
    var tracks := Between(owned, 0, |st|);
    BetweenMembers(owned, 0, |st|);
    BetweenCardinality(owned, 0, |st|);
    BelowEndIsOnDisk(bandCount, owned, 0, |st|);
    forall i | 0 <= i < |tracks| ensures tracks[i] < |st| && lt[tracks[i]].valid { assert tracks[i] in tracks; }
    LiveIsOwned(st, lt);
  }

  /** A committed delete leaves the tables consistent; only heads of dominated bands matter, and they stay. */
  lemma {:induction false} DeleteKeepsTables(build: Build, st0: seq<Block>, lt0: seq<LtpEntry>, st: seq<Block>,
                                             lt: seq<LtpEntry>,
                          bands: seq<Band>, fid: nat)
    requires Mapped(st0, lt0) && |st0| == |bands| * BAND_TRACKS
    requires var tracks := Between(OwnedBy(OwnersOf(lt0), fid), 0, |st0|);
      Erased(st0, lt0, st, lt, tracks, |tracks|)
    requires WellPlaced(bands) && (build != CMR ==> Dominated(bands, Live(st0)))
    ensures Mapped(st, lt) && OwnersOf(lt) == Release(OwnersOf(lt0), fid)
    ensures var tracks := Between(OwnedBy(OwnersOf(lt0), fid), 0, |st0|);
      && OnDisk(|bands|, tracks)
      && var after := TouchAll(false, bands, tracks);
      && WellPlaced(after) && (build != CMR ==> Dominated(after, Live(st)))
  {
    var owned := OwnedBy(OwnersOf(lt0), fid);
    var tracks := Between(owned, 0, |st0|);
    BetweenMembers(owned, 0, |st0|);
    BelowEndIsOnDisk(|bands|, owned, 0, |st0|);
    EraseRefinesRelease(st0, lt0, st, lt, tracks, fid);
    TouchAllWellPlaced(false, bands, tracks);
    if build != CMR {
      TouchAllDominated(false, bands, tracks, Live(st0));
      DominatedShrinks(TouchAll(false, bands, tracks), Live(st0) + Elements(tracks), Live(st));
    }
  }

  class Disk {
    const build: Build
    const maxBlockNum: nat
    const storage: array<Block>
    const ltp: array<LtpEntry>
    const band: array<Band>
    var blockTable: seq<Entry>
    var extendTable: seq<Entry>
    const report: Report
    /** What all runs charged so far come to, per kind of request. */
    ghost var readTotals: Totals
    ghost var writeTotals: Totals
    ghost var deleteTotals: Totals

    ghost predicate Layout() {
      storage.Length == ltp.Length == maxBlockNum == band.Length * BAND_TRACKS <= UINT_RANGE
    }

    ghost predicate TablesValid()
      reads storage, ltp, band
    {
      && Mapped(storage[..], ltp[..])
      && WellPlaced(band[..])
      && (build != CMR ==> Dominated(band[..], Live(storage[..])))
    }

    ghost predicate ChargesValid()
      reads `readTotals, `writeTotals, `deleteTotals
      reads report`totalAccessTime, report`readTime, report`readSize, report`writeTime, report`normalWriteSize,
            report`writeSize, report`rewriteSize, report`rereadSize, report`deleteTime, report`deleteWriteSize,
            report`deleteRewriteSize, report`deleteRereadSize
    {
      && Lawful(readTotals) && Lawful(writeTotals) && Lawful(deleteTotals)
      && OnlyPhysical(readTotals)
      && report.Charged(readTotals, writeTotals, deleteTotals)
    }

    /** No written block and no block in use goes uncounted. */
    ghost predicate BlocksCounted()
      reads storage, `writeTotals, `deleteTotals, report`currentUseBlockNum
    {
      && SumCounts(storage[..]) == writeTotals.direct
      && report.currentUseBlockNum == |InUseTracks(storage[..])| + deleteTotals.direct
    }

    ghost predicate BooksValid()
      reads storage, `readTotals, `writeTotals, `deleteTotals
      reads report`totalAccessTime, report`readTime, report`readSize, report`writeTime, report`normalWriteSize,
            report`writeSize, report`rewriteSize, report`rereadSize, report`deleteTime, report`deleteWriteSize,
            report`deleteRewriteSize, report`deleteRereadSize
      reads report`readBlockSize, report`writeBlockSize, report`deleteWriteBlockSize, report`currentUseBlockNum
    {
      ChargesValid() && report.Balanced(readTotals, writeTotals, deleteTotals) && BlocksCounted()
    }

    ghost predicate Valid()
      reads this, storage, ltp, band, report
    {
      Layout() && |blockTable| == |extendTable| == 0 && TablesValid() && BooksValid()
    }

    ghost function Owners(): Owners
      reads this, ltp
    {
      OwnersOf(ltp[..])
    }

    lemma {:induction false} OwnersAre()
      requires Layout()
      ensures Owners() == OwnersOf(ltp[..]) && storage.Length == ltp.Length == maxBlockNum
    {
    }

    /** What a valid disk consists of. */
    lemma {:induction false} Parts()
      requires Valid()
      ensures Layout() && maxBlockNum == storage.Length == ltp.Length == band.Length * BAND_TRACKS
      ensures |blockTable| == |extendTable| == 0 && BooksValid()
      ensures TablesValid() && Mapped(storage[..], ltp[..]) && WellPlaced(band[..])
      ensures build != CMR ==> Dominated(band[..], Live(storage[..]))
      ensures Owners() == OwnersOf(ltp[..])
    {
    }

    lemma {:induction false} OwnersAreOnDisk()
      requires Valid()
      ensures forall l :: l in Owners() ==> l < maxBlockNum
    {
    }

    lemma {:induction false} LiveIsOwners()
      requires Valid()
      ensures Live(storage[..]) == Owners().Keys
    {
      LiveIsOwned(storage[..], ltp[..]);
    }

    lemma {:induction false} Whole()
      requires Layout() && |blockTable| == |extendTable| == 0 && TablesValid() && BooksValid()
      ensures Valid()
    {
    }

    // ----- what every report of a valid disk satisfies ----------------------------------

    /** Sizes: bytes charged and bytes of blocks agree, and follow from the write counts of the blocks. */
    lemma {:induction false} SizesAreConserved()
      requires Valid()
      ensures report.writeSize == report.writeBlockSize == report.normalWriteSize == SumCounts(storage[..]) * TRACK_SIZE
      ensures report.readSize == report.readBlockSize == readTotals.direct * TRACK_SIZE
      ensures report.rewriteSize == writeTotals.rewrite * TRACK_SIZE && report.rereadSize == writeTotals.reread * TRACK_SIZE
      ensures report.deleteWriteSize == deleteTotals.direct * TRACK_SIZE
      ensures report.deleteRewriteSize == deleteTotals.rewrite * TRACK_SIZE
      ensures report.deleteRereadSize == deleteTotals.reread * TRACK_SIZE
      ensures report.deleteWriteSize == report.deleteWriteBlockSize
      ensures report.rewriteSize <= report.rereadSize <= report.rewriteSize + report.writeSize
      ensures report.deleteRewriteSize <= report.deleteRereadSize <= report.deleteRewriteSize + report.deleteWriteSize
    {
      TimesIsProduct(readTotals.direct, TRACK_SIZE);
      TimesIsProduct(writeTotals.direct, TRACK_SIZE);
      TimesIsProduct(writeTotals.rewrite, TRACK_SIZE);
      TimesIsProduct(writeTotals.reread, TRACK_SIZE);
      TimesIsProduct(deleteTotals.direct, TRACK_SIZE);
      TimesIsProduct(deleteTotals.rewrite, TRACK_SIZE);
      TimesIsProduct(deleteTotals.reread, TRACK_SIZE);
      LawfulSizes(writeTotals);
      LawfulSizes(deleteTotals);
    }

    /** Blocks: every block that ever came into use is still in use or was deleted. */
    lemma {:induction false} BlocksAreConserved()
      requires Valid()
      ensures report.currentUseBlockNum * BLOCK_SIZE == |InUseTracks(storage[..])| * BLOCK_SIZE + report.deleteWriteBlockSize
      ensures Live(storage[..]) == InUseTracks(storage[..]) == Owners().Keys
    {
      TimesIsProduct(deleteTotals.direct, TRACK_SIZE);
      LiveIsOwned(storage[..], ltp[..]);
    }

    /** Latency: access time splits by kind, and follows from the sizes and the number of runs charged. */
    lemma {:induction false} TimeIsConserved()
      requires Valid()
      ensures report.totalAccessTime == report.readTime + report.writeTime + report.deleteTime
      ensures report.readTime * TRACK_SIZE
              == (L_ROTATIONAL + L_TRANSFER) * report.readSize + TRACK_SIZE * L_SEEK * readTotals.physicalRuns
      ensures report.writeTime * TRACK_SIZE
              == (L_ROTATIONAL + L_TRANSFER) * (report.writeSize + report.rewriteSize + 2 * report.rereadSize)
                 + TRACK_SIZE * L_SEEK * (writeTotals.physicalRuns + 3 * writeTotals.virtualRuns)
      ensures report.deleteTime * TRACK_SIZE
              == (L_ROTATIONAL + L_TRANSFER) * (report.deleteWriteSize + report.deleteRewriteSize + 2 * report.deleteRereadSize)
                 + TRACK_SIZE * L_SEEK * (deleteTotals.physicalRuns + 3 * deleteTotals.virtualRuns)
    {
      LawfulLatency(readTotals);
      TimesIsProduct(0, TRACK_SIZE);
      LawfulLatency(writeTotals);
      LawfulLatency(deleteTotals);
    }

    // ----- set-up -----------------------------------------------------------------

    /** init_disk for a disk of `size` GiB, with init_band. */
    constructor (size: nat, build: Build)
      requires 0 < size && 512 * size <= UINT_RANGE
      ensures Valid() && fresh(storage) && fresh(ltp) && fresh(band) && fresh(report)
      ensures this.build == build && maxBlockNum == 512 * size && band.Length == 2 * size
      ensures Owners() == map[]
      ensures forall b :: 0 <= b < band.Length ==> InitialBand(band[b], b)
      ensures OnlyPhysical(writeTotals) && writeTotals.direct == 0
    {
      hide OnlyPhysical, Lawful;
      this.build := build;
      maxBlockNum := 512 * size;
      storage := new Block[512 * size](_ => Block(Free, 0, 0));
      ltp := new LtpEntry[512 * size](_ => LtpEntry(0, 0, false));
      band := new Band[2 * size];
      ghost var none := NoTotals();
      report := new Report(none);
      readTotals, writeTotals, deleteTotals := none, none, none;
      new;
      BatchClear();
      InitBand();
      ValidAtStart();
    }

    method BatchClear()
      modifies this`blockTable, this`extendTable
      ensures |blockTable| == |extendTable| == 0
    {
      blockTable, extendTable := [], [];
    }

    lemma {:induction false} ValidAtStart()
      requires Layout() && |blockTable| == |extendTable| == 0
      requires Lawful(readTotals) && Lawful(writeTotals) && Lawful(deleteTotals)
      requires OnlyPhysical(readTotals)
      requires report.Charged(readTotals, writeTotals, deleteTotals) && report.Balanced(readTotals, writeTotals, deleteTotals)
      requires report.currentUseBlockNum == writeTotals.direct == deleteTotals.direct == 0
      requires forall l :: 0 <= l < maxBlockNum ==> storage[l] == Block(Free, 0, 0)
      requires forall l :: 0 <= l < maxBlockNum ==> ltp[l] == LtpEntry(0, 0, false)
      requires forall b :: 0 <= b < band.Length ==> InitialBand(band[b], b)
      ensures Valid() && Owners() == map[]
    {
      InitialTables(storage[..], ltp[..], band[..]);
    }

    method InitBand()
      modifies band
      ensures forall b :: 0 <= b < band.Length ==> InitialBand(band[b], b)
    {
      var bandSize := 0;
      for i := 0 to band.Length
        invariant bandSize == i * BAND_TRACKS
        invariant forall b :: 0 <= b < i ==> InitialBand(band[b], b)
      {
        var unsetStart: nat, unsetEnd: nat := *, *;
        band[i] := Band(bandSize, bandSize, false, unsetStart, unsetEnd, false);
        bandSize := bandSize + BAND_TRACKS;
      }
    }

    // ----- address translation ------------------------------------------------------

    method PbaSearch(lba: nat, fid: nat) returns (pba: nat)
      requires Layout() && lba < maxBlockNum
      requires ltp[lba].valid ==> ltp[lba].fid == fid && ltp[lba].pba == lba && storage[lba].status == InUse
      modifies storage, ltp
      ensures pba == lba
      ensures ltp[..] == old(ltp[..])[lba := LtpEntry(lba, fid, true)]
      ensures storage[..] == old(storage[..])[lba := old(storage[lba]).(status := if old(ltp[lba].valid) then InUse else Booked)]
    {
      pba := ltp[lba].pba;
      if ltp[lba].valid && ltp[lba].fid == fid && storage[pba].status == InUse {
        return;
      }
      storage[lba] := storage[lba].(status := Booked);
      pba := lba;
      StoredPbaIsExact(maxBlockNum);
      ltp[lba] := LtpEntry(StoredPba(pba), fid, true);
    }

    // ----- block status -----------------------------------------------------------

    method ChsWrite(pba: nat)
      requires pba < storage.Length && StorageIsInUse(storage[pba])
      modifies storage, report`currentUseBlockNum
      ensures storage[..] == old(storage[..])[pba := old(storage[pba]).(status := InUse, count := old(storage[pba]).count + 1)]
      ensures report.currentUseBlockNum
              == old(report.currentUseBlockNum) + if old(storage[pba]).status == InUse then 0 else 1
    {
      if storage[pba].status != InUse {
        storage[pba] := storage[pba].(status := InUse);
        report.currentUseBlockNum := report.currentUseBlockNum + 1;
      }
      storage[pba] := storage[pba].(count := storage[pba].count + 1);
    }

    method ChsDelete(pba: nat)
      requires Layout() && pba < maxBlockNum && storage[pba].status == InUse
      requires storage[pba].lba < maxBlockNum && ltp[storage[pba].lba].valid
      modifies storage, ltp
      ensures storage[..] == old(storage[..])[pba := old(storage[pba]).(status := Invalid)]
      ensures ltp[..] == old(ltp[..])[old(storage[pba]).lba := old(ltp[storage[pba].lba]).(valid := false)]
    {
      var lba := storage[pba].lba;
      storage[pba] := storage[pba].(status := Invalid);
      ltp[lba] := ltp[lba].(valid := false);
    }

    method PbaWrite(ghost tracks: seq<nat>, ghost before: nat) returns (sum: nat)
      requires report.writeBlockSize == Bytes(before)
      requires blockTable == Physical(tracks) && StrictlyAscending(tracks)
      requires forall i :: 0 <= i < |tracks| ==> tracks[i] < storage.Length && StorageIsInUse(storage[tracks[i]])
      modifies storage, report`currentUseBlockNum, report`writeBlockSize
      ensures sum == |tracks|
      ensures Written(old(storage[..]), storage[..], tracks, |tracks|)
      ensures SumCounts(storage[..]) == SumCounts(old(storage[..])) + |tracks|
      ensures report.writeBlockSize == Bytes(before + |tracks|)
      ensures report.currentUseBlockNum + |InUseTracks(old(storage[..]))|
              == old(report.currentUseBlockNum) + |InUseTracks(storage[..])|
    {
      hide InUseTracks, SumCounts, Bytes;
      sum := |blockTable|;
      for i := 0 to |blockTable|
        invariant Written(old(storage[..]), storage[..], tracks, i)
        invariant SumCounts(storage[..]) == SumCounts(old(storage[..])) + i
        invariant report.writeBlockSize == old(report.writeBlockSize)
        invariant report.currentUseBlockNum + |InUseTracks(old(storage[..]))|
                  == old(report.currentUseBlockNum) + |InUseTracks(storage[..])|
      {
        var pba := blockTable[i].pba;
        WrittenStep(old(storage[..]), storage[..], tracks, i);
        ChsWrite(pba);
      }
      report.writeBlockSize := AddBlocks(report.writeBlockSize, sum, before);
    }

    method PbaDelete(ghost tracks: seq<nat>, ghost before: nat, ghost after: nat) returns (sum: nat)
      requires report.deleteWriteBlockSize == Bytes(before) && after == before + |tracks|
      requires Layout() && Mapped(storage[..], ltp[..])
      requires blockTable == Physical(tracks) && StrictlyAscending(tracks)
      requires forall i :: 0 <= i < |tracks| ==> tracks[i] < maxBlockNum && ltp[tracks[i]].valid
      modifies storage, ltp, report`deleteWriteBlockSize
      ensures sum == |tracks|
      ensures Erased(old(storage[..]), old(ltp[..]), storage[..], ltp[..], tracks, |tracks|)
      ensures SumCounts(storage[..]) == SumCounts(old(storage[..]))
      ensures |InUseTracks(storage[..])| + |tracks| == |InUseTracks(old(storage[..]))|
      ensures report.deleteWriteBlockSize == Bytes(after)
    {
      sum := |blockTable|;
      for i := 0 to |blockTable|
        invariant Erased(old(storage[..]), old(ltp[..]), storage[..], ltp[..], tracks, i)
        invariant SumCounts(storage[..]) == SumCounts(old(storage[..]))
        invariant |InUseTracks(storage[..])| + i == |InUseTracks(old(storage[..]))|
        invariant report.deleteWriteBlockSize == old(report.deleteWriteBlockSize)
      {
        var pba := blockTable[i].pba;
        ErasedStep(old(storage[..]), old(ltp[..]), storage[..], ltp[..], tracks, i);
        ChsDelete(pba);
      }
      report.deleteWriteBlockSize := AddBlocks(report.deleteWriteBlockSize, sum, before);
    }

    // ----- planning -----------------------------------------------------------------

    method BatchAdd(pba: nat)
      modifies this`blockTable
      ensures blockTable == old(blockTable) + [Entry(pba, false)]
    {
      blockTable := blockTable + [Entry(pba, false)];
    }

    method BatchSync() returns (nonempty: bool)
      modifies this`blockTable
      ensures nonempty <==> |old(blockTable)| > 0
      ensures blockTable == SortByPba(old(blockTable))
    {
      if |blockTable| == 0 { return false; }
      blockTable := SortByPba(blockTable);
      return true;
    }

    /** The scan loops of the planners: live tracks of a range join the list as virtual entries. */
    method AddLive(lo: nat, hi: nat)
      requires hi <= storage.Length
      modifies this`extendTable
      ensures extendTable == old(extendTable) + Virtual(Between(Live(storage[..]), lo, hi))
    {
      ghost var live := Live(storage[..]);
      var rmw := lo;
      while rmw < hi
        invariant lo <= rmw && (lo <= hi ==> rmw <= hi) && (hi < lo ==> rmw == lo)
        invariant extendTable == old(extendTable) + Virtual(Between(live, lo, rmw))
      {
        if StorageIsInUse(storage[rmw]) {
          extendTable := extendTable + [Entry(rmw, true)];
        }
        rmw := rmw + 1;
      }
      if hi <= lo { BetweenEmptyRange(live, lo, hi); BetweenEmptyRange(live, lo, lo); }
    }

    lemma {:induction false} WindowOnDisk(bands: seq<Band>, b: nat)
      requires WellPlaced(bands) && b < |bands|
      ensures var end := |bands| * BAND_TRACKS;
        bands[b].writeHead < end && (bands[b].flagRMW ==> bands[b].rmwStart < end && bands[b].rmwEnd < end)
    {
    }

    /** What a flagged band contributes from before its window. */
    method AddBandFront(nativeA: bool, b: nat)
      requires Layout() && WellPlaced(band[..]) && b < band.Length && band[b].flagRMW
      modifies this`extendTable
      ensures extendTable == old(extendTable) + BandFront(nativeA, band[..][b], Live(storage[..]))
    {
      WindowOnDisk(band[..], b);
      AppendNothing(extendTable);
      hide Between, Virtual, Live, WellPlaced, InBand;
      if nativeA {
        AddLive(band[b].bandHead, band[b].rmwStart);
      }
    }

    /** What one band contributes. */
    method AddBandTail(nativeA: bool, b: nat)
      requires Layout() && WellPlaced(band[..]) && b < band.Length
      modifies this`extendTable
      ensures extendTable == old(extendTable) + BandTail(nativeA, band[..][b], Live(storage[..]))
    {
      WindowOnDisk(band[..], b);
      AppendNothing(extendTable);
      hide Between, Virtual, Live, WellPlaced, InBand, BandFront;
      if band[b].flagRMW {
        ghost var d, live, table := band[..][b], Live(storage[..]), extendTable;
        AddBandFront(nativeA, b);
        AddLive(band[b].rmwEnd + 1, band[b].writeHead + 1);
        AppendTwice(table, BandFront(nativeA, d, live), Virtual(Between(live, d.rmwEnd + 1, d.writeHead + 1)));
      }
    }

    /** The loop over all bands of both planners. */
    method AddTails(nativeA: bool)
      requires Layout() && WellPlaced(band[..])
      modifies this`extendTable
      ensures extendTable == old(extendTable) + Tails(nativeA, band[..], Live(storage[..]), band.Length)
    {
      ghost var table, bands, live := extendTable, band[..], Live(storage[..]);
      for b := 0 to band.Length
        invariant band[..] == bands && Live(storage[..]) == live
        invariant extendTable == table + Tails(nativeA, bands, live, b)
      {
        AddBandTail(nativeA, b);
        TailsStep(nativeA, bands, live, b, table);
      }
    }

    /** The effect of one entry on its band, as both planners spell it out. */
    method TouchBand(track: nat)
      requires BandOf(track) < band.Length
      modifies band
      ensures band[..] == old(band[..])[BandOf(track) := Touch(old(band[..])[BandOf(track)], track)]
    {
      var b := BandOf(track);
      var head := band[b].writeHead;
      if !band[b].flagRMW {
        if track >= head {
          band[b] := band[b].(writeHead := track);
        } else {
          band[b] := band[b].(flagRMW := true, rmwStart := track, rmwEnd := track);
        }
      } else {
        band[b] := band[b].(rmwEnd := track);
        if track >= head {
          band[b] := band[b].(writeHead := track);
        }
      }
    }

    /** The first loop of batch_extend. */
    method TouchBatch(ghost tracks: seq<nat>)
      requires blockTable == Physical(tracks) && OnDisk(band.Length, tracks) && |extendTable| == 0
      modifies this`extendTable, band
      ensures band[..] == TouchAll(false, old(band[..]), tracks)
      ensures extendTable == blockTable
    {
      for i := 0 to |blockTable|
        invariant band[..] == TouchAll(false, old(band[..]), tracks[..i])
        invariant extendTable == blockTable[..i]
      {
        var track := blockTable[i].pba;
        assert track == tracks[i] && tracks[..i + 1] == tracks[..i] + [track];
        TouchBand(track);
        extendTable := extendTable + [blockTable[i]];
      }
      assert tracks[..|tracks|] == tracks;
    }

    /** batch_extend. */
    method BatchExtend(ghost tracks: seq<nat>)
      requires Layout() && WellPlaced(band[..])
      requires blockTable == Physical(tracks) && StrictlyAscending(tracks) && OnDisk(band.Length, tracks)
      requires |extendTable| == 0
      modifies this`extendTable, band
      ensures band[..] == TouchAll(false, old(band[..]), tracks)
      ensures extendTable == Plan(build == NativeA, old(band[..]), Live(storage[..]), tracks)
    {
      TouchAllWellPlaced(false, band[..], tracks);
      TouchBatch(tracks);
      AddTails(build == NativeA);
    }

    /** batch_extend_fluidsmr: CMR bands are passed over, and the band loop runs once per entry. */
    method BatchExtendFluid(ghost tracks: seq<nat>)
      requires Layout() && WellPlaced(band[..])
      requires blockTable == Physical(tracks) && StrictlyAscending(tracks) && OnDisk(band.Length, tracks)
      requires |extendTable| == 0
      modifies this`extendTable, band
      ensures band[..] == TouchAll(true, old(band[..]), tracks)
      ensures extendTable == FluidPlan(old(band[..]), Live(storage[..]), tracks)
    {
      hide Live, WellPlaced, Tails, Touch, TouchAll, FluidPlan;
      FluidPlanOfNone(band[..], Live(storage[..]));
      for i := 0 to |blockTable|
        invariant band[..] == TouchAll(true, old(band[..]), tracks[..i])
        invariant extendTable == FluidPlan(old(band[..]), Live(storage[..]), tracks[..i])
      {
        var track := blockTable[i].pba;
        FluidPlanTurn(old(band[..]), Live(storage[..]), tracks, i);
        if !band[BandOf(track)].flagCMR {
          TouchBand(track);
        }
        extendTable := extendTable + [blockTable[i]];
        AddTails(false);
      }
      assert tracks[..|tracks|] == tracks;
    }

    // ----- charging -----------------------------------------------------------------

    method PbaRead(ghost before: nat) returns (sum: nat)
      requires report.readBlockSize == Bytes(before)
      modifies report`readBlockSize
      ensures sum == |blockTable|
      ensures report.readBlockSize == Bytes(before + |blockTable|)
    {
      sum := |blockTable|;
      report.readBlockSize := AddBlocks(report.readBlockSize, sum, before);
    }

    method RecordRead()
      requires |blockTable| > 0 && forall i :: 0 <= i < |blockTable| ==> !blockTable[i].isVirtual
      requires ChargesValid()
      modifies this`readTotals, report`totalAccessTime, report`readTime, report`readSize
      ensures IsSum(readTotals, old(readTotals), Tally(SplitRuns(blockTable)))
      ensures ChargesValid()
      ensures readTotals.direct == old(readTotals).direct + |blockTable|
    {
      var t := DetectPhysicalRuns(blockTable);
      PhysicalListTally(blockTable);
      TallyIsLawful(SplitRuns(blockTable), |SplitRuns(blockTable)|);
      ghost var total := LawfulSum(readTotals, t);
      report.ChargeRead(t, readTotals, writeTotals, deleteTotals, total);
      readTotals := total;
    }

    /** The list record_write and record_delete walk: the CMR build has no extended one. */
    function ChargedTable(): seq<Entry>
      reads `blockTable, `extendTable
    {
      if build == CMR then blockTable else extendTable
    }

    method DetectCharged() returns (t: Totals)
      requires |ChargedTable()| > 0
      requires build == CMR ==> forall i :: 0 <= i < |blockTable| ==> !blockTable[i].isVirtual
      ensures t == Tally(SplitRuns(ChargedTable()))
      ensures Lawful(t) && t.direct == CountPhysical(ChargedTable())
    {
      if build == CMR {
        t := DetectPhysicalRuns(blockTable);
      } else {
        t := DetectRuns(extendTable);
      }
      WriteIsPhysicalSize(ChargedTable());
      TallyIsLawful(SplitRuns(ChargedTable()), |SplitRuns(ChargedTable())|);
    }

    method RecordWrite()
      requires |ChargedTable()| > 0
      requires build == CMR ==> forall i :: 0 <= i < |blockTable| ==> !blockTable[i].isVirtual
      requires ChargesValid()
      modifies this`writeTotals, report`totalAccessTime, report`writeTime, report`normalWriteSize, report`writeSize,
               report`rewriteSize, report`rereadSize
      ensures IsSum(writeTotals, old(writeTotals), Tally(SplitRuns(ChargedTable())))
      ensures ChargesValid()
      ensures writeTotals.direct == old(writeTotals).direct + CountPhysical(ChargedTable())
    {
      var t := DetectCharged();
      ghost var total := LawfulSum(writeTotals, t);
      report.ChargeWrite(t, readTotals, writeTotals, deleteTotals, total);
      writeTotals := total;
    }

    method RecordDelete()
      requires |ChargedTable()| > 0
      requires build == CMR ==> forall i :: 0 <= i < |blockTable| ==> !blockTable[i].isVirtual
      requires ChargesValid()
      modifies this`deleteTotals, report`totalAccessTime, report`deleteTime, report`deleteWriteSize,
               report`deleteRewriteSize, report`deleteRereadSize
      ensures IsSum(deleteTotals, old(deleteTotals), Tally(SplitRuns(ChargedTable())))
      ensures ChargesValid()
      ensures deleteTotals.direct == old(deleteTotals).direct + CountPhysical(ChargedTable())
    {
      var t := DetectCharged();
      ghost var total := LawfulSum(deleteTotals, t);
      report.ChargeDelete(t, readTotals, writeTotals, deleteTotals, total);
      deleteTotals := total;
    }

    // ----- batches: order, plan, change status, charge ---------------------------------

    lemma {:induction false} PhysicalIsSorted(tracks: seq<nat>)
      requires StrictlyAscending(tracks)
      ensures SortByPba(Physical(tracks)) == Physical(tracks)
    {
      SortOfSorted(Physical(tracks));
    }

    method BatchRead(ghost tracks: seq<nat>) returns (count: nat)
      requires |tracks| > 0 && blockTable == Physical(tracks) && StrictlyAscending(tracks)
      requires |extendTable| == 0 && BooksValid()
      modifies this`blockTable, this`extendTable, this`readTotals
      modifies report`readBlockSize, report`totalAccessTime, report`readTime, report`readSize
      ensures count == |tracks|
      ensures |blockTable| == |extendTable| == 0
      ensures IsSum(readTotals, old(readTotals), Tally(SplitRuns(Physical(tracks))))
      ensures BooksValid()
    {
      hide SplitRuns, Tally, SortByPba, Lawful;
      PhysicalIsSorted(tracks);
      var nonempty := BatchSync();
      count := PbaRead(readTotals.direct);
      RecordRead();
      BatchClear();
    }

    /** Sorting and planning a write, in the planner of the build. */
    method PlanWrite(ghost tracks: seq<nat>)
      requires Layout() && WellPlaced(band[..])
      requires |tracks| > 0 && blockTable == Physical(tracks) && StrictlyAscending(tracks)
      requires |extendTable| == 0 && OnDisk(band.Length, tracks)
      modifies this`blockTable, this`extendTable, band
      ensures blockTable == old(blockTable)
      ensures band[..] == BandsAfterWrite(build, old(band[..]), tracks)
      ensures ChargedTable() == WriteList(build, old(band[..]), Live(storage[..]), tracks)
      ensures CountPhysical(ChargedTable()) == |tracks| > 0 && |ChargedTable()| > 0
    {
      PhysicalIsSorted(tracks);
      ListPhysicalCount(build, band[..], Live(storage[..]), tracks);
      var nonempty := BatchSync();
      if build == FluidSMR {
        BatchExtendFluid(tracks);
      } else if build != CMR {
        BatchExtend(tracks);
      }
    }

    /** Sorting and planning a delete. */
    method PlanDelete(ghost tracks: seq<nat>)
      requires Layout() && WellPlaced(band[..])
      requires |tracks| > 0 && blockTable == Physical(tracks) && StrictlyAscending(tracks)
      requires |extendTable| == 0 && OnDisk(band.Length, tracks)
      modifies this`blockTable, this`extendTable, band
      ensures blockTable == old(blockTable)
      ensures band[..] == TouchAll(false, old(band[..]), tracks)
      ensures ChargedTable() == DeleteList(build, old(band[..]), Live(storage[..]), tracks)
      ensures CountPhysical(ChargedTable()) == |tracks| > 0 && |ChargedTable()| > 0
    {
      PhysicalIsSorted(tracks);
      ListPhysicalCount(build, band[..], Live(storage[..]), tracks);
      var nonempty := BatchSync();
      BatchExtend(tracks);
    }

    /** pba_write and record_write together keep the books. */
    method WriteAndCharge(ghost tracks: seq<nat>) returns (count: nat)
      requires blockTable == Physical(tracks) && StrictlyAscending(tracks)
      requires forall i :: 0 <= i < |tracks| ==> tracks[i] < storage.Length && StorageIsInUse(storage[tracks[i]])
      requires |ChargedTable()| > 0 && CountPhysical(ChargedTable()) == |tracks|
      requires BooksValid()
      modifies this`writeTotals, storage
      modifies report`currentUseBlockNum, report`writeBlockSize
      modifies report`totalAccessTime, report`writeTime, report`normalWriteSize, report`writeSize,
               report`rewriteSize, report`rereadSize
      ensures count == |tracks|
      ensures Written(old(storage[..]), storage[..], tracks, |tracks|)
      ensures IsSum(writeTotals, old(writeTotals), Tally(SplitRuns(ChargedTable())))
      ensures BooksValid()
    {
      hide SplitRuns, Tally, Lawful, Written;
      count := PbaWrite(tracks, writeTotals.direct);
      RecordWrite();
    }

    method BatchWrite(ghost tracks: seq<nat>) returns (count: nat)
      requires Layout() && WellPlaced(band[..])
      requires |tracks| > 0 && blockTable == Physical(tracks) && StrictlyAscending(tracks)
      requires |extendTable| == 0 && OnDisk(band.Length, tracks)
      requires forall i :: 0 <= i < |tracks| ==> tracks[i] < maxBlockNum && StorageIsInUse(storage[tracks[i]])
      requires BooksValid()
      modifies this`blockTable, this`extendTable, this`writeTotals, storage, band
      modifies report`currentUseBlockNum, report`writeBlockSize
      modifies report`totalAccessTime, report`writeTime, report`normalWriteSize, report`writeSize,
               report`rewriteSize, report`rereadSize
      ensures count == |tracks|
      ensures |blockTable| == |extendTable| == 0
      ensures Written(old(storage[..]), storage[..], tracks, |tracks|)
      ensures band[..] == BandsAfterWrite(build, old(band[..]), tracks)
      ensures IsSum(writeTotals, old(writeTotals),
                    Tally(SplitRuns(WriteList(build, old(band[..]), Live(old(storage[..])), tracks))))
      ensures BooksValid()
    {
      hide BooksValid, SplitRuns, Tally, Written, WriteList, BandsAfterWrite, WellPlaced;
      PlanWrite(tracks);
      count := WriteAndCharge(tracks);
      BatchClear();
    }

    /** record_delete and pba_delete together keep the books. */
    method ChargeAndDelete(ghost tracks: seq<nat>) returns (count: nat)
      requires Layout() && Mapped(storage[..], ltp[..])
      requires blockTable == Physical(tracks) && StrictlyAscending(tracks)
      requires forall i :: 0 <= i < |tracks| ==> tracks[i] < maxBlockNum && ltp[tracks[i]].valid
      requires |ChargedTable()| > 0 && CountPhysical(ChargedTable()) == |tracks|
      requires BooksValid()
      modifies this`deleteTotals, storage, ltp
      modifies report`deleteWriteBlockSize
      modifies report`totalAccessTime, report`deleteTime, report`deleteWriteSize,
               report`deleteRewriteSize, report`deleteRereadSize
      ensures count == |tracks|
      ensures Erased(old(storage[..]), old(ltp[..]), storage[..], ltp[..], tracks, |tracks|)
      ensures IsSum(deleteTotals, old(deleteTotals), Tally(SplitRuns(ChargedTable())))
      ensures BooksValid()
    {
      hide SplitRuns, Tally, Lawful, Erased;
      ghost var before := deleteTotals.direct;
      RecordDelete();
      count := PbaDelete(tracks, before, deleteTotals.direct);
    }

    method BatchDelete(ghost tracks: seq<nat>) returns (count: nat)
      requires Layout() && WellPlaced(band[..]) && Mapped(storage[..], ltp[..])
      requires |tracks| > 0 && blockTable == Physical(tracks) && StrictlyAscending(tracks)
      requires |extendTable| == 0 && OnDisk(band.Length, tracks)
      requires forall i :: 0 <= i < |tracks| ==> tracks[i] < maxBlockNum && ltp[tracks[i]].valid
      requires BooksValid()
      modifies this`blockTable, this`extendTable, this`deleteTotals, storage, ltp, band
      modifies report`deleteWriteBlockSize
      modifies report`totalAccessTime, report`deleteTime, report`deleteWriteSize,
               report`deleteRewriteSize, report`deleteRereadSize
      ensures count == |tracks|
      ensures |blockTable| == |extendTable| == 0
      ensures Erased(old(storage[..]), old(ltp[..]), storage[..], ltp[..], tracks, |tracks|)
      ensures band[..] == TouchAll(false, old(band[..]), tracks)
      ensures IsSum(deleteTotals, old(deleteTotals),
                    Tally(SplitRuns(DeleteList(build, old(band[..]), Live(old(storage[..])), tracks))))
      ensures BooksValid()
    {
      hide BooksValid, SplitRuns, Tally, Erased, DeleteList, TouchAll, WellPlaced, Mapped;
      PlanDelete(tracks);
      count := ChargeAndDelete(tracks);
      BatchClear();
    }

    // ----- requests --------------------------------------------------------------------

    /** The loop of lba_read: owned addresses join the batch. */
    method CollectOwned(lba: nat, n: nat, fid: nat) returns (numInvalid: nat)
      requires Layout() && Mapped(storage[..], ltp[..]) && lba + n <= maxBlockNum
      requires |blockTable| == 0
      modifies this`blockTable, report`numInvalidRead
      ensures var owned := Owned(Owners(), lba, n, fid);
        && blockTable == Physical(Between(owned, lba, lba + n))
        && numInvalid + |blockTable| == n
      ensures report.numInvalidRead == old(report.numInvalidRead) + numInvalid
    {
      ghost var owned := Owned(Owners(), lba, n, fid);
      numInvalid := 0;
      for i := 0 to n
        invariant blockTable == Physical(Between(owned, lba, lba + i))
        invariant numInvalid + |blockTable| == i
        invariant report.numInvalidRead == old(report.numInvalidRead) + numInvalid
      {
        var l := lba + i;
        assert ltp[..][l] == ltp[l] && storage[..][l] == storage[l];
        if ltp[l].valid && ltp[l].fid == fid && storage[ltp[l].pba].status == InUse {
          BatchAdd(ltp[l].pba);
        } else {
          numInvalid := numInvalid + 1;
          report.numInvalidRead := report.numInvalidRead + 1;
        }
      }
    }

    /** lba_read for a range on the disk. */
    method ReadRange(lba: nat, n: nat, fid: nat) returns (count: nat)
      requires Layout() && Mapped(storage[..], ltp[..]) && InRange(maxBlockNum, lba, n)
      requires |blockTable| == |extendTable| == 0 && BooksValid()
      modifies this`blockTable, this`extendTable, this`readTotals
      modifies report`numInvalidRead, report`readBlockSize, report`totalAccessTime, report`readTime, report`readSize
      ensures |blockTable| == |extendTable| == 0 && BooksValid()
      ensures count == |Owned(Owners(), lba, n, fid)|
      ensures ReadCharges(Owners(), old(readTotals), readTotals, lba, n, fid)
      ensures report.numInvalidRead + count == old(report.numInvalidRead) + n
    {
      hide BooksValid, Between, SplitRuns, Tally;
      ghost var owned := Owned(Owners(), lba, n, fid);
      BetweenMembers(owned, lba, lba + n);
      BetweenCardinality(owned, lba, lba + n);
      var numInvalid := CollectOwned(lba, n, fid);
      count := 0;
      if numInvalid < n {
        count := BatchRead(Between(owned, lba, lba + n));
      }
    }

    /** lba_read: serves exactly the addresses of the range that `fid` owns, and changes nothing but counters. */
    method LbaRead(lba: nat, n: nat, fid: nat) returns (count: nat)
      requires Valid()
      modifies this, report
      ensures Valid() && Owners() == old(Owners())
      ensures count == Result(Owners(), maxBlockNum, Read(lba, n, fid))
      ensures writeTotals == old(writeTotals) && deleteTotals == old(deleteTotals)
      ensures if InRange(maxBlockNum, lba, n) then ReadCharges(Owners(), old(readTotals), readTotals, lba, n, fid)
              else readTotals == old(readTotals)
      ensures InRange(maxBlockNum, lba, n) ==> report.numInvalidRead + count == old(report.numInvalidRead) + n
      ensures !InRange(maxBlockNum, lba, n) ==> report.numInvalidRead == old(report.numInvalidRead)
    {
      count := 0;
      if n > 0 && lba < maxBlockNum && lba + (n - 1) < maxBlockNum {
        count := ReadRange(lba, n, fid);
      }
    }

    /** One turn of the loop of lba_write. */
    method LinkOne(ghost lba: nat, l: nat, fid: nat, ghost st0: seq<Block>, ghost lt0: seq<LtpEntry>, ghost claimed: set<nat>)
      returns (invalid: bool)
      requires Layout() && lba <= l < maxBlockNum
      requires Mapped(st0, lt0) && Linked(st0, lt0, storage[..], ltp[..], claimed, l, fid)
      requires l < |lt0| && ClaimsAt(lt0, claimed, l, fid) && blockTable == Physical(Between(claimed, lba, l))
      modifies this`blockTable, report`numInvalidWrite, storage, ltp
      ensures invalid <==> l !in claimed
      ensures blockTable == Physical(Between(claimed, lba, l + 1))
      ensures |blockTable| == |old(blockTable)| + if invalid then 0 else 1
      ensures report.numInvalidWrite == old(report.numInvalidWrite) + if invalid then 1 else 0
      ensures Linked(st0, lt0, storage[..], ltp[..], claimed, l + 1, fid)
    {
      ScanStep(claimed, lba, l);
      LinkedStep(st0, lt0, storage[..], ltp[..], claimed, l, fid);
      invalid := ltp[l].valid && fid != ltp[l].fid;
      if invalid {
        report.numInvalidWrite := report.numInvalidWrite + 1;
      } else {
        var pba := PbaSearch(l, fid);
        storage[pba] := storage[pba].(lba := l);
        BatchAdd(pba);
      }
    }

    /** The loop of lba_write: claimable addresses are booked for `fid` and join the batch. */
    method LinkClaimable(lba: nat, n: nat, fid: nat, ghost claimed: set<nat>) returns (numInvalid: nat)
      requires Layout() && Mapped(storage[..], ltp[..]) && lba + n <= maxBlockNum
      requires |blockTable| == 0 && claimed == Claimable(Owners(), lba, n, fid)
      modifies this`blockTable, report`numInvalidWrite, storage, ltp
      ensures blockTable == Physical(Between(claimed, lba, lba + n))
      ensures numInvalid + |blockTable| == n
      ensures Linked(old(storage[..]), old(ltp[..]), storage[..], ltp[..], claimed, lba + n, fid)
      ensures report.numInvalidWrite == old(report.numInvalidWrite) + numInvalid
    {
      hide *;
      ghost var st0, lt0 := storage[..], ltp[..];
      OwnersAre();
      ScanStep(claimed, lba, lba);
      LinkStart(st0, lt0, claimed, lba, n, fid);
      numInvalid := 0;
      for i := 0 to n
        invariant blockTable == Physical(Between(claimed, lba, lba + i))
        invariant numInvalid + |blockTable| == i
        invariant Linked(st0, lt0, storage[..], ltp[..], claimed, lba + i, fid)
        invariant report.numInvalidWrite == old(report.numInvalidWrite) + numInvalid
      {
        var invalid := LinkOne(lba, lba + i, fid, st0, lt0, claimed);
        if invalid { numInvalid := numInvalid + 1; }
      }
    }

    /** Booking a range keeps the books, and changes nothing when every address is refused. */
    method BookRange(lba: nat, n: nat, fid: nat, ghost claimed: set<nat>) returns (numInvalid: nat)
      requires Layout() && Mapped(storage[..], ltp[..]) && lba + n <= maxBlockNum
      requires |blockTable| == 0 && BooksValid() && claimed == Claimable(Owners(), lba, n, fid)
      modifies this`blockTable, report`numInvalidWrite, storage, ltp
      ensures blockTable == Physical(Between(claimed, lba, lba + n)) && |blockTable| == |claimed| == n - numInvalid
      ensures Linked(old(storage[..]), old(ltp[..]), storage[..], ltp[..], claimed, lba + n, fid)
      ensures report.numInvalidWrite == old(report.numInvalidWrite) + numInvalid
      ensures BooksValid()
      ensures claimed == {} ==> storage[..] == old(storage[..]) && ltp[..] == old(ltp[..])
    {
      ghost var st0, lt0 := storage[..], ltp[..];
      BetweenCardinality(claimed, lba, lba + n);
      numInvalid := LinkClaimable(lba, n, fid, claimed);
      LinkedKeepsTotals(st0, lt0, storage[..], ltp[..], claimed, lba + n, fid);
      if claimed == {} {
        NothingLinked(st0, lt0, storage[..], ltp[..], claimed, lba + n, fid);
      }
    }

    /** The tail of lba_write: the booked batch is planned, written and charged. */
    method CommitWrite(ghost claimed: set<nat>, ghost lba: nat, ghost n: nat, ghost fid: nat,
                       ghost st0: seq<Block>, ghost lt0: seq<LtpEntry>) returns (count: nat)
      requires Layout() && |extendTable| == 0
      requires InRange(maxBlockNum, lba, n) && claimed == Claimable(OwnersOf(lt0), lba, n, fid) != {}
      requires blockTable == Physical(Between(claimed, lba, lba + n))
      requires Mapped(st0, lt0) && Linked(st0, lt0, storage[..], ltp[..], claimed, lba + n, fid)
      requires WellPlaced(band[..]) && (build != CMR ==> Dominated(band[..], Live(st0)))
      requires BooksValid()
      modifies this`blockTable, this`extendTable, this`writeTotals, storage, band
      modifies report`currentUseBlockNum, report`writeBlockSize
      modifies report`totalAccessTime, report`writeTime, report`normalWriteSize, report`writeSize,
               report`rewriteSize, report`rereadSize
      ensures Valid()
      ensures count == |claimed|
      ensures Owners() == Claim(OwnersOf(lt0), claimed, fid)
      ensures WriteMoves(build, OwnersOf(lt0), old(band[..]), band[..], lba, n, fid)
      ensures WriteCharges(build, OwnersOf(lt0), old(band[..]), old(writeTotals), writeTotals, lba, n, fid)
    {
      hide BooksValid, Between, SplitRuns, Tally, Mapped, Written, WellPlaced, Dominated;
      ghost var tracks := Between(claimed, lba, lba + n);
      BatchReady(st0, lt0, storage[..], ltp[..], claimed, lba, n, fid, band.Length);
      count := BatchWrite(tracks);
      WriteKeepsTables(build, st0, lt0, old(storage[..]), ltp[..], storage[..], old(band[..]), claimed, lba, n, fid);
    }

    lemma {:induction false} TablesAgain(m: Owners)
      requires Mapped(storage[..], ltp[..]) && WellPlaced(band[..]) && m == OwnersOf(ltp[..])
      requires build != CMR ==> Dominated(band[..], Live(storage[..]))
      ensures TablesValid() && Owners() == m
    {
    }

    /** lba_write for a range on the disk. */
    method WriteRange(lba: nat, n: nat, fid: nat) returns (count: nat)
      requires Valid() && InRange(maxBlockNum, lba, n)
      modifies this`blockTable, this`extendTable, this`writeTotals, storage, ltp, band
      modifies report`numInvalidWrite, report`currentUseBlockNum, report`writeBlockSize
      modifies report`totalAccessTime, report`writeTime, report`normalWriteSize, report`writeSize,
               report`rewriteSize, report`rereadSize
      ensures Valid()
      ensures Owners() == Claim(old(Owners()), Claimable(old(Owners()), lba, n, fid), fid)
      ensures count == |Claimable(old(Owners()), lba, n, fid)|
      ensures WriteMoves(build, old(Owners()), old(band[..]), band[..], lba, n, fid)
      ensures WriteCharges(build, old(Owners()), old(band[..]), old(writeTotals), writeTotals, lba, n, fid)
      ensures report.numInvalidWrite + count == old(report.numInvalidWrite) + n
    {
      assert lba + n <= maxBlockNum;
      hide *;
      Parts();
      ghost var st0, lt0, m, claimed := storage[..], ltp[..], Owners(), Claimable(Owners(), lba, n, fid);
      var numInvalid := BookRange(lba, n, fid, claimed);
      count := 0;
      if numInvalid < n {
        count := CommitWrite(claimed, lba, n, fid, st0, lt0);
      } else {
        NothingClaimed(build, m, band[..], writeTotals, lba, n, fid);
        TablesAgain(m);
        Whole();
      }
    }

    /** lba_write: claims exactly the free and own addresses of the range, and leaves foreign ones alone. */
    method LbaWrite(lba: nat, n: nat, fid: nat) returns (count: nat)
      requires Valid()
      modifies this, storage, ltp, band, report
      ensures Valid()
      ensures Owners() == Apply(old(Owners()), maxBlockNum, Write(lba, n, fid))
      ensures count == Result(old(Owners()), maxBlockNum, Write(lba, n, fid))
      ensures readTotals == old(readTotals) && deleteTotals == old(deleteTotals)
      ensures InRange(maxBlockNum, lba, n) ==> WriteMoves(build, old(Owners()), old(band[..]), band[..], lba, n, fid)
      ensures InRange(maxBlockNum, lba, n) ==>
                WriteCharges(build, old(Owners()), old(band[..]), old(writeTotals), writeTotals, lba, n, fid)
      ensures !InRange(maxBlockNum, lba, n) ==> band[..] == old(band[..]) && writeTotals == old(writeTotals)
      ensures InRange(maxBlockNum, lba, n) ==> report.numInvalidWrite + count == old(report.numInvalidWrite) + n
      ensures !InRange(maxBlockNum, lba, n) ==> report.numInvalidWrite == old(report.numInvalidWrite)
    {
      count := 0;
      if n > 0 && lba < maxBlockNum && lba + (n - 1) < maxBlockNum {
        count := WriteRange(lba, n, fid);
      }
    }

    /** The loop of native_lba_delete: every address of the file joins the batch. */
    method CollectFile(fid: nat) returns (count: nat)
      requires Layout() && Mapped(storage[..], ltp[..]) && |blockTable| == 0
      modifies this`blockTable
      ensures blockTable == Physical(Between(OwnedBy(Owners(), fid), 0, maxBlockNum))
      ensures count == |blockTable|
    {
      ghost var owned := OwnedBy(Owners(), fid);
      count := 0;
      for i := 0 to maxBlockNum
        invariant blockTable == Physical(Between(owned, 0, i))
        invariant count == |blockTable|
      {
        assert ltp[..][i] == ltp[i];
        if ltp[i].valid && fid == ltp[i].fid {
          BatchAdd(ltp[i].pba);
          count := count + 1;
        }
      }
    }

    /** lba_delete: removes exactly the blocks of the file, whatever range the request names. */
    method LbaDelete(fid: nat) returns (count: nat)
      requires Valid()
      modifies this, storage, ltp, band, report
      ensures Valid()
      ensures Owners() == Apply(old(Owners()), maxBlockNum, Delete(fid))
      ensures count == Result(old(Owners()), maxBlockNum, Delete(fid))
      ensures readTotals == old(readTotals) && writeTotals == old(writeTotals)
      ensures DeleteMoves(old(Owners()), old(band[..]), band[..], maxBlockNum, fid)
      ensures DeleteCharges(build, old(Owners()), old(band[..]), old(deleteTotals), deleteTotals, maxBlockNum, fid)
    {
      ghost var st0, lt0, owned := storage[..], ltp[..], OwnedBy(Owners(), fid);
      DeleteReady(st0, lt0, owned, fid, band.Length);
      count := CollectFile(fid);
      if count == 0 {
        NothingToRelease(Owners(), fid);
      } else {
        count := BatchDelete(Between(owned, 0, maxBlockNum));
        DeleteKeepsTables(build, st0, lt0, storage[..], ltp[..], old(band[..]), fid);
      }
    }

    /** A zone that goes into use sets the kind of its band; a band with live tracks only ever becomes conventional. */
    method SetFlagCMR(b: nat, flag: bool)
      requires Valid() && b < band.Length && (flag || !band[b].flagCMR)
      modifies band
      ensures Valid()
      ensures band[..] == old(band[..])[b := old(band[b]).(flagCMR := flag)]
    {
      band[b] := band[b].(flagCMR := flag);
    }

    /** The instruction counters of the parsers, which nothing else depends on. */
    method CountLine(c: int)
      requires Valid()
      modifies report`insCount, report`readInsCount, report`writeInsCount, report`deleteInsCount
      ensures Valid() && report.insCount == old(report.insCount) + 1
      ensures report.readInsCount == old(report.readInsCount) + if c == 1 then 1 else 0
      ensures report.writeInsCount == old(report.writeInsCount) + if c == 2 then 1 else 0
      ensures report.deleteInsCount == old(report.deleteInsCount) + if c == 3 then 1 else 0
    {
      report.insCount := report.insCount + 1;
      if c == 1 {
        report.readInsCount := report.readInsCount + 1;
      } else if c == 2 {
        report.writeInsCount := report.writeInsCount + 1;
      } else if c == 3 {
        report.deleteInsCount := report.deleteInsCount + 1;
      }
    }
  }
}
