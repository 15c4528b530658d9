/** The FluidSMR space on its disk: updating, placing and opening zones (fluidsmr_parsing_csv in main.c). */
module FluidSpace {
  import opened Geometry
  import opened ZoneSlots
  import opened Bands
  import opened Runs
  import opened Ownership
  import opened DiskState
  import opened SmrDisk
  import opened FluidZones
  import opened FluidPlacement

  /** A request that does not fit would start reclaiming, which is not modelled. */
  datatype Outcome = NeedsReclaim | Served(left: nat)

  class FluidSmr {
    const disk: Disk
    const zones: array<Zone>
    var usedZoneCount: nat
    var cmrBoundary: nat
    var smrBoundary: nat
    var cmrCount: nat
    var smrCount: nat
    var blockRemain: nat
    /** The bands of shingled zones in which an update in place hit a slot that was not the last one written. */
    ghost var rewritten: set<nat>
    /** How many updates in place there were. */
    ghost var updates: nat

    ghost predicate DiskValid()
      reads disk, disk.storage, disk.ltp, disk.band, disk.report, `rewritten, `updates
    {
      && disk.build == FluidSMR && disk.Valid() && FlagsExplained(disk.band[..], rewritten, disk.writeTotals)
      && disk.writeTotals.direct == |disk.Owners()| + updates
    }

    ghost predicate Valid()
      reads this, zones, disk, disk.storage, disk.ltp, disk.band, disk.report
    {
      && zones.Length == disk.band.Length
      && SpaceValid(zones[..], usedZoneCount)
      && Tallied(zones[..], usedZoneCount, cmrBoundary, smrBoundary, cmrCount, smrCount, blockRemain)
      && DiskValid()
      && OnBands(zones[..], usedZoneCount, disk.band[..], disk.Owners())
    }

    /** What a valid space consists of. */
    lemma {:induction false} Parts()
      requires Valid()
      ensures usedZoneCount <= zones.Length == disk.band.Length && disk.maxBlockNum == zones.Length * BAND_TRACKS
      ensures SpaceValid(zones[..], usedZoneCount)
      ensures Tallied(zones[..], usedZoneCount, cmrBoundary, smrBoundary, cmrCount, smrCount, blockRemain)
      ensures disk.build == FluidSMR && disk.Valid() && FlagsExplained(disk.band[..], rewritten, disk.writeTotals)
      ensures disk.writeTotals.direct == |disk.Owners()| + updates && DiskValid()
      ensures OnBands(zones[..], usedZoneCount, disk.band[..], disk.Owners())
      ensures Dominated(disk.band[..], disk.Owners().Keys)
    {
      LiveIsOwned(disk.storage[..], disk.ltp[..]);
    }

    lemma {:induction false} DiskParts()
      requires DiskValid()
      ensures disk.build == FluidSMR && disk.Valid() && FlagsExplained(disk.band[..], rewritten, disk.writeTotals)
      ensures disk.writeTotals.direct == |disk.Owners()| + updates
    {
    }

    lemma {:induction false} DiskWhole()
      requires disk.build == FluidSMR && disk.Valid() && FlagsExplained(disk.band[..], rewritten, disk.writeTotals)
      requires disk.writeTotals.direct == |disk.Owners()| + updates
      ensures DiskValid()
    {
    }

    lemma {:induction false} ExtentOnDisk(lo: nat, k: nat, b: nat)
      requires disk.Valid() && b < disk.band.Length && lo + k <= (b + 1) * BAND_TRACKS
      ensures lo + k <= disk.maxBlockNum
    {
    }

    lemma {:induction false} Whole()
      requires zones.Length == disk.band.Length
      requires SpaceValid(zones[..], usedZoneCount)
      requires Tallied(zones[..], usedZoneCount, cmrBoundary, smrBoundary, cmrCount, smrCount, blockRemain)
      requires disk.build == FluidSMR && disk.Valid() && FlagsExplained(disk.band[..], rewritten, disk.writeTotals)
      requires disk.writeTotals.direct == |disk.Owners()| + updates
      requires OnBands(zones[..], usedZoneCount, disk.band[..], disk.Owners())
      ensures Valid()
    {
    }

    /** The free-space counter is exact: what is neither owned on the disk nor sealed is free, to the last block. */
    lemma {:induction false} FreeSpaceIsExact()
      requires Valid()
      ensures blockRemain + |disk.Owners()| + (BAND_TRACKS - CMR_TRACKS) * cmrCount == disk.maxBlockNum
    {
      Parts();
      TracksAddUp(zones[..], usedZoneCount, disk.band[..], disk.Owners());
    }

    /** Every owned track was written once, and once more per update in place: the appends write nothing twice. */
    lemma {:induction false} WritesAreAppendsAndUpdates()
      requires Valid()
      ensures disk.report.writeSize == (|disk.Owners()| + updates) * TRACK_SIZE
    {
      Parts();
      disk.SizesAreConserved();
    }

    /**
      The two ends never meet: conventional zones lie in the bands below `cmrBoundary`, the others above the bands that
      are still spare, and no two zones share a band.
     */
    lemma {:induction false} EndsNeverCross()
      requires Valid()
      ensures cmrBoundary == cmrCount <= zones.Length - smrCount && cmrCount + smrCount == usedZoneCount <= zones.Length
      ensures smrCount < zones.Length ==> smrBoundary == zones.Length - smrCount - 1
      ensures forall z: nat :: z < usedZoneCount ==>
                && zones[z].logicalLba == ZoneBand(zones[..], z) * BAND_TRACKS
                && (if zones[z].zoneType == 0 then ZoneBand(zones[..], z) < cmrBoundary
                    else zones.Length - smrCount <= ZoneBand(zones[..], z) < zones.Length)
                && (disk.band[ZoneBand(zones[..], z)].flagCMR <==> zones[z].zoneType == 0)
      ensures forall y: nat, z: nat :: y < z < usedZoneCount ==> ZoneBand(zones[..], y) != ZoneBand(zones[..], z)
      ensures forall b :: cmrBoundary <= b < zones.Length - smrCount ==> Spare(disk.band[b], b, disk.Owners())
    {
      forall z: nat | z < usedZoneCount
        ensures zones[z].zoneType == 0 ==> ZoneBand(zones[..], z) < cmrBoundary
        ensures zones[z].zoneType != 0 ==> zones.Length - smrCount <= ZoneBand(zones[..], z)
      {
        BandsStayOnTheirSide(zones[..], usedZoneCount, z);
      }
      forall y: nat, z: nat | y < z < usedZoneCount ensures ZoneBand(zones[..], y) != ZoneBand(zones[..], z) {
        BandsAreDistinct(zones[..], usedZoneCount, y, z);
      }
      forall z: nat | z < usedZoneCount
        ensures disk.band[ZoneBand(zones[..], z)].flagCMR <==> zones[z].zoneType == 0
      {
        assert Serves(disk.band[..][ZoneBand(zones[..], z)], zones[..][z]);
      }
    }

    /**
      Something was rewritten exactly if an update hit a slot that its shingled zone had written past; otherwise no band
      is RMW, nothing was read back, and every run was a plain one.
     */
    lemma {:induction false} RewritesAreUpdates()
      requires Valid()
      ensures disk.report.rewriteSize > 0 <==> rewritten != {}
      ensures rewritten == {} ==> disk.report.rereadSize == 0 == disk.writeTotals.virtualRuns
      ensures rewritten == {} ==> forall b :: 0 <= b < disk.band.Length ==> !disk.band[b].flagRMW
    {
      TimesIsProduct(disk.writeTotals.rewrite, TRACK_SIZE);
      TimesIsProduct(0, TRACK_SIZE);
    }

    /** The set-up of fluidsmr_parsing_csv; `memory` is whatever the slots hold when they are allocated. */
    constructor (size: nat, memory: (nat, nat) -> Slot)
      requires 0 < size && 512 * size <= UINT_RANGE
      ensures Valid() && fresh(disk) && fresh(zones)
      ensures fresh(disk.storage) && fresh(disk.ltp) && fresh(disk.band) && fresh(disk.report)
      ensures zones.Length == 2 * size && usedZoneCount == 0 && blockRemain == 512 * size
      ensures rewritten == {} && updates == 0
    {
      disk := new Disk(size, FluidSMR);
      zones := new Zone[2 * size];
      usedZoneCount, cmrBoundary, smrBoundary, cmrCount, smrCount := 0, 0, 2 * size - 1, 0, 0;
      blockRemain := 512 * size;
      rewritten, updates := {}, 0;
      new;
      hide *;
      InitZones(memory);
      FreshSpace(zones[..], disk.band[..], disk.Owners(), disk.writeTotals, blockRemain);
      Whole();
    }

    method InitZones(memory: (nat, nat) -> Slot)
      modifies zones
      ensures forall z :: 0 <= z < zones.Length ==> Untouched(zones[z])
    {
      for z := 0 to zones.Length
        invariant forall i :: 0 <= i < z ==> Untouched(zones[i])
      {
        var slots := seq(BAND_TRACKS, i requires 0 <= i < BAND_TRACKS => memory(z, i));
        zones[z] := Zone(false, false, 2, 0, 0, slots);
      }
    }

    // ----- placing ------------------------------------------------------------------------

    /**
      The inner loop of both placements: records of the request go into the next slots, except the one that was
      updated in place. A zone that was just opened is also found full when a conventional one reaches its end.
     */
    method FillSlots(z: nat, fid: nat, lba: nat, n: nat, skip: Option<nat>, justOpened: bool) returns (taken: nat, zoneN: nat)
      requires z < zones.Length && ZoneValid(zones[z]) && !zones[z].isFull
      modifies zones
      ensures taken <= n && zoneN == |ToPlace(fid, lba, taken, skip)|
      ensures old(zones[z]).writeHead + zoneN <= Capacity(old(zones[z]).zoneType)
      ensures zones[..] == old(zones[..])[z := zones[z]]
      ensures zones[z] == Filled(old(zones[z]), ToPlace(fid, lba, taken, skip))
                          .(writeHead := old(zones[z]).writeHead, isFull := zones[z].isFull)
      ensures taken < n || zones[z].isFull ==> old(zones[z]).writeHead + zoneN == Capacity(old(zones[z]).zoneType)
      ensures taken > 0 ==> |ToPlace(fid, lba, taken - 1, skip)| < FreeIn(old(zones[z]))
    {
      hide Filled;
      ghost var before, zones0 := zones[z], zones[..];
      FilledNone(before);
      var whp := zones[z].writeHead;
      taken, zoneN := 0, 0;
      while whp < BAND_TRACKS && taken < n
        invariant whp == before.writeHead + zoneN <= Capacity(before.zoneType) && taken <= n
        invariant zoneN == |ToPlace(fid, lba, taken, skip)|
        invariant zones[..] == zones0[z := zones[z]]
        invariant zones[z] == Filled(before, ToPlace(fid, lba, taken, skip))
                              .(writeHead := before.writeHead, isFull := zones[z].isFull)
        invariant zones[z].isFull ==> whp == Capacity(before.zoneType)
        invariant taken > 0 ==> |ToPlace(fid, lba, taken - 1, skip)| < FreeIn(before)
        decreases n - taken
      {
        FilledMore(before, ToPlace(fid, lba, taken, skip), Record(fid, lba + taken));
        if zones[z].blocks[whp].isSealed {
          zones[z] := zones[z].(isFull := true);
          break;
        }
        if skip != Some(lba + taken) {
          var slot := zones[z].blocks[whp].(record := Record(fid, lba + taken));
          zones[z] := zones[z].(blocks := zones[z].blocks[whp := slot]);
          zoneN, whp := zoneN + 1, whp + 1;
        }
        taken := taken + 1;
        if whp == BAND_TRACKS || (justOpened && zones[z].zoneType == 0 && whp == CMR_TRACKS) {
          zones[z] := zones[z].(isFull := true);
        }
      }
    }

    /** The disk write of an append: its tracks are free and at or past the head, so no band turns RMW. */
    method WriteExtent(lo: nat, k: nat, fid: nat, ghost b: nat)
      requires DiskValid() && b < disk.band.Length && b * BAND_TRACKS <= lo && lo + k <= (b + 1) * BAND_TRACKS
      requires forall t: nat :: lo <= t < lo + k ==> t !in disk.Owners()
      requires disk.band[b].flagCMR || disk.band[b].writeHead <= lo
      modifies disk, disk.storage, disk.ltp, disk.band, disk.report
      ensures DiskValid()
      ensures disk.readTotals == old(disk.readTotals)
      ensures RangeClaimed(old(disk.Owners()), disk.Owners(), lo, k, fid)
      ensures OnlyMoves(old(disk.band[..]), disk.band[..], b, lo, k)
      ensures rewritten == {} && k > 0 ==> IsSum(disk.writeTotals, old(disk.writeTotals), PhysicalCost(k))
    {
      hide DiskValid, FlagsExplained, RangeClaimed, OnlyMoves, IsSum, WriteMoves, WriteCharges, Claimable, Claim, PhysicalCost;
      DiskParts();
      ExtentOnDisk(lo, k, b);
      ghost var m, bands0, t0 := disk.Owners(), disk.band[..], disk.writeTotals;
      var accepted := disk.LbaWrite(lo, k, fid);
      FreeRangeClaimed(m, lo, k, fid);
      NoExtent(bands0, m, b, lo, fid);
      OwnersGrow(m, disk.Owners(), lo, k, fid);
      if k > 0 {
        RangeIsChargedOnce(m, bands0, t0, disk.writeTotals, lo, k, fid);
        FreshExtent(m, bands0, disk.band[..], t0, disk.writeTotals, lo, k, fid, b, rewritten);
      }
      DiskWhole();
    }

    /** Filling a zone, writing the extent to the disk, and moving the write head. */
    method AppendToZone(z: nat, fid: nat, lba: nat, n: nat, skip: Option<nat>, justOpened: bool, ghost b: nat)
      returns (taken: nat)
      requires z < zones.Length && ZoneValid(zones[z]) && !zones[z].isFull
      requires DiskValid() && Ready(zones[z], b, disk.band[..], disk.Owners()) && FreeIn(zones[z]) <= blockRemain
      modifies `blockRemain, zones, disk, disk.storage, disk.ltp, disk.band, disk.report
      ensures DiskValid() && taken <= n
      ensures disk.readTotals == old(disk.readTotals)
      ensures AppendsTo(old(zones[..]), zones[..], z, ToPlace(fid, lba, taken, skip))
      ensures taken < n ==> FreeIn(zones[z]) == 0
      ensures taken > 0 ==> |ToPlace(fid, lba, taken - 1, skip)| < FreeIn(old(zones[..])[z])
      ensures var lo, k := old(zones[z].logicalLba + zones[z].writeHead), |ToPlace(fid, lba, taken, skip)|;
        && RangeClaimed(old(disk.Owners()), disk.Owners(), lo, k, fid)
        && OnlyMoves(old(disk.band[..]), disk.band[..], b, lo, k)
        && blockRemain == old(blockRemain) - k
        && (rewritten == {} && k > 0 ==> IsSum(disk.writeTotals, old(disk.writeTotals), PhysicalCost(k)))
    {
      hide DiskValid, RangeClaimed, OnlyMoves, ToPlace, IsSum;
      var head := zones[z].writeHead;
      var zoneN: nat;
      taken, zoneN := FillSlots(z, fid, lba, n, skip, justOpened);
      WriteExtent(zones[z].logicalLba + head, zoneN, fid, b);
      zones[z] := zones[z].(writeHead := head + zoneN);
      blockRemain := blockRemain - zoneN;
    }

    /** An append to a zone in use. */
    method FillZone(z: nat, fid: nat, lba: nat, n: nat, skip: Option<nat>, justOpened: bool) returns (taken: nat)
      requires Valid() && z < usedZoneCount && !zones[z].isFull
      modifies `blockRemain, zones, disk, disk.storage, disk.ltp, disk.band, disk.report
      ensures Valid() && taken <= n
      ensures disk.readTotals == old(disk.readTotals)
      ensures AppendsTo(old(zones[..]), zones[..], z, ToPlace(fid, lba, taken, skip))
      ensures taken < n ==> FreeIn(zones[z]) == 0
      ensures taken > 0 ==> |ToPlace(fid, lba, taken - 1, skip)| < FreeIn(old(zones[..])[z])
      ensures rewritten == {} && |ToPlace(fid, lba, taken, skip)| > 0 ==>
                IsSum(disk.writeTotals, old(disk.writeTotals), PhysicalCost(|ToPlace(fid, lba, taken, skip)|))
    {
      hide *;
      Parts();
      ghost var zones0, bands0, m := zones[..], disk.band[..], disk.Owners();
      UsedZonesAreReady(zones0, usedZoneCount, z, bands0, m);
      FreeIsCounted(zones0, usedZoneCount, z, cmrBoundary, smrBoundary, cmrCount, smrCount, blockRemain);
      taken := AppendToZone(z, fid, lba, n, skip, justOpened, ZoneBand(zones0, z));
      AppendStep(zones0, zones[..], usedZoneCount, z, fid, lba, taken, skip, bands0, disk.band[..], m, disk.Owners(),
                 cmrBoundary, smrBoundary, cmrCount, smrCount, old(blockRemain), blockRemain);
      DiskParts();
      Whole();
    }

    // ----- opening ------------------------------------------------------------------------

    method UnsealAll(z: nat)
      requires z < zones.Length && |zones[z].blocks| == BAND_TRACKS
      modifies zones
      ensures zones[..] == old(zones[..])[z := zones[z]]
      ensures zones[z] == old(zones[z]).(blocks := zones[z].blocks) && |zones[z].blocks| == BAND_TRACKS
      ensures forall i :: 0 <= i < BAND_TRACKS ==> !zones[z].blocks[i].isSealed
    {
      ghost var before, zones0 := zones[z], zones[..];
      for i := 0 to BAND_TRACKS
        invariant zones[..] == zones0[z := zones[z]]
        invariant zones[z] == before.(blocks := zones[z].blocks) && |zones[z].blocks| == BAND_TRACKS
        invariant forall j :: 0 <= j < i ==> !zones[z].blocks[j].isSealed
      {
        zones[z] := zones[z].(blocks := zones[z].blocks[i := zones[z].blocks[i].(isSealed := false)]);
      }
    }

    /** Seals the slots a conventional zone must not use; they no longer count as free. */
    method SealTail(z: nat)
      requires z < zones.Length && |zones[z].blocks| == BAND_TRACKS && blockRemain >= BAND_TRACKS
      requires forall i :: 0 <= i < BAND_TRACKS ==> !zones[z].blocks[i].isSealed
      modifies zones, `blockRemain
      ensures zones[..] == old(zones[..])[z := zones[z]]
      ensures zones[z] == old(zones[z]).(blocks := zones[z].blocks) && |zones[z].blocks| == BAND_TRACKS
      ensures forall i :: 0 <= i < BAND_TRACKS ==> (zones[z].blocks[i].isSealed <==> i >= CMR_TRACKS)
      ensures blockRemain == old(blockRemain) - (BAND_TRACKS - CMR_TRACKS)
    {
      ghost var before, zones0 := zones[z], zones[..];
      for i := CMR_TRACKS to BAND_TRACKS
        invariant zones[..] == zones0[z := zones[z]]
        invariant zones[z] == before.(blocks := zones[z].blocks) && |zones[z].blocks| == BAND_TRACKS
        invariant forall j :: 0 <= j < BAND_TRACKS ==> (zones[z].blocks[j].isSealed <==> CMR_TRACKS <= j < i)
        invariant blockRemain == old(blockRemain) - (i - CMR_TRACKS)
      {
        zones[z] := zones[z].(blocks := zones[z].blocks[i := zones[z].blocks[i].(isSealed := true)]);
        blockRemain := blockRemain - 1;
      }
    }

    /** A conventional zone goes onto the lowest spare band. */
    method StartConventional(z: nat)
      requires z < zones.Length == disk.band.Length && |zones[z].blocks| == BAND_TRACKS && blockRemain >= BAND_TRACKS
      requires forall i :: 0 <= i < BAND_TRACKS ==> !zones[z].blocks[i].isSealed
      requires cmrBoundary < disk.band.Length && disk.Valid()
      modifies `cmrBoundary, `cmrCount, `blockRemain, zones, disk.band
      ensures zones[..] == old(zones[..])[z := zones[z]]
      ensures zones[z] == old(zones[z]).(blocks := zones[z].blocks, logicalLba := old(cmrBoundary) * BAND_TRACKS)
      ensures |zones[z].blocks| == BAND_TRACKS
      ensures forall i :: 0 <= i < BAND_TRACKS ==> (zones[z].blocks[i].isSealed <==> i >= CMR_TRACKS)
      ensures cmrCount == old(cmrCount) + 1 && cmrBoundary == old(cmrBoundary) + 1
      ensures blockRemain == old(blockRemain) - (BAND_TRACKS - CMR_TRACKS)
      ensures disk.Valid()
      ensures disk.band[..] == old(disk.band[..])[old(cmrBoundary) := old(disk.band[cmrBoundary]).(flagCMR := true)]
    {
      SealTail(z);
      cmrCount := cmrCount + 1;
      zones[z] := zones[z].(logicalLba := cmrBoundary * BAND_TRACKS);
      disk.SetFlagCMR(cmrBoundary, true);
      cmrBoundary := cmrBoundary + 1;
    }

    /** Any other zone goes onto the highest spare band. */
    method StartShingled(z: nat)
      requires z < zones.Length == disk.band.Length
      requires smrBoundary < disk.band.Length && disk.Valid() && !disk.band[smrBoundary].flagCMR
      modifies `smrBoundary, `smrCount, zones, disk.band
      ensures zones[..] == old(zones[..])[z := zones[z]]
      ensures zones[z] == old(zones[z]).(logicalLba := old(smrBoundary) * BAND_TRACKS)
      ensures smrCount == old(smrCount) + 1 && smrBoundary == Decrement(old(smrBoundary))
      ensures disk.Valid()
      ensures disk.band[..] == old(disk.band[..])[old(smrBoundary) := old(disk.band[smrBoundary]).(flagCMR := false)]
    {
      smrCount := smrCount + 1;
      zones[z] := zones[z].(logicalLba := smrBoundary * BAND_TRACKS);
      disk.SetFlagCMR(smrBoundary, false);
      smrBoundary := Decrement(smrBoundary);
    }

    /** The next zone goes into use on band `b`, the one at the boundary of its kind. */
    method StartZone(hint: int, ghost b: nat)
      requires usedZoneCount < zones.Length == disk.band.Length && Untouched(zones[usedZoneCount])
      requires b == NextBand(zones[..], usedZoneCount, hint) == (if hint == 0 then cmrBoundary else smrBoundary)
      requires blockRemain >= BAND_TRACKS && disk.Valid() && !disk.band[b].flagCMR
      modifies `usedZoneCount, `cmrBoundary, `smrBoundary, `cmrCount, `smrCount, `blockRemain, zones, disk.band
      ensures Opens(old(zones[..]), zones[..], old(usedZoneCount), hint) && usedZoneCount == old(usedZoneCount) + 1
      ensures disk.Valid() && disk.band[..] == old(disk.band[..])[b := old(disk.band[b]).(flagCMR := hint == 0)]
      ensures CountsOpening(hint, old(cmrBoundary), old(smrBoundary), old(cmrCount), old(smrCount), old(blockRemain),
                            cmrBoundary, smrBoundary, cmrCount, smrCount, blockRemain)
    {
      var z := usedZoneCount;
      zones[z] := zones[z].(isUsed := true, zoneType := hint);
      UnsealAll(z);
      if hint == 0 {
        StartConventional(z);
      } else {
        StartShingled(z);
      }
      usedZoneCount := usedZoneCount + 1;
    }

    /** Opening a zone keeps everything in order; only a type without room gets one. */
    method OpenZone(hint: int)
      requires Valid() && usedZoneCount < zones.Length && NoRoom(zones[..], usedZoneCount, hint)
      modifies `usedZoneCount, `cmrBoundary, `smrBoundary, `cmrCount, `smrCount, `blockRemain, zones, disk.band
      ensures Valid() && usedZoneCount == old(usedZoneCount) + 1
      ensures Opens(old(zones[..]), zones[..], old(usedZoneCount), hint)
    {
      hide *;
      Parts();
      ghost var zones0, bands0, z := zones[..], disk.band[..], usedZoneCount;
      ghost var b := NextBand(zones0, z, hint);
      ReadyToOpen(zones0, z, hint, bands0, disk.Owners(), cmrBoundary, smrBoundary, cmrCount, smrCount, blockRemain);
      StartZone(hint, b);
      OpenStep(zones0, zones[..], z, hint, bands0, disk.band[..], disk.Owners(), b, rewritten, disk.writeTotals,
               old(cmrBoundary), old(smrBoundary), old(cmrCount), old(smrCount), old(blockRemain),
               cmrBoundary, smrBoundary, cmrCount, smrCount, blockRemain);
      Whole();
    }

    // ----- a write ------------------------------------------------------------------------

    /** One turn of the first loop of a placement: a zone in use of the hinted type that is not full takes what it can. */
    method FillIfOpen(z: nat, fid: nat, lba: nat, n: nat, skip: Option<nat>, hint: int) returns (taken: nat)
      requires Valid() && z < usedZoneCount && (0 < n ==> NoRoom(zones[..], z, hint))
      modifies `blockRemain, zones, disk, disk.storage, disk.ltp, disk.band, disk.report
      ensures Valid() && taken <= n
      ensures disk.readTotals == old(disk.readTotals)
      ensures Placed(old(zones[..]), usedZoneCount, zones[..], usedZoneCount, hint, fid, lba, taken, skip)
      ensures taken < n ==> NoRoom(zones[..], z + 1, hint)
    {
      hide *;
      ghost var zones0 := zones[..];
      Parts();
      if !zones[z].isFull && zones[z].zoneType == hint {
        taken := FillZone(z, fid, lba, n, skip, false);
        AppendIsPlaced(zones0, zones[..], usedZoneCount, z, fid, lba, taken, skip);
        if taken < n { NoRoomBehind(zones0, zones[..], z, ToPlace(fid, lba, taken, skip), hint); }
      } else {
        taken := 0;
        NothingPlaced(zones0, usedZoneCount, hint, fid, lba, skip);
        if 0 < n { NoRoomPast(zones0, usedZoneCount, z, hint); }
      }
    }

    /** The first loop of a placement. */
    method FillUsed(fid: nat, lba: nat, n: nat, skip: Option<nat>, hint: int) returns (done: nat)
      requires Valid()
      modifies `blockRemain, zones, disk, disk.storage, disk.ltp, disk.band, disk.report
      ensures Valid() && done <= n
      ensures disk.readTotals == old(disk.readTotals)
      ensures Placed(old(zones[..]), usedZoneCount, zones[..], usedZoneCount, hint, fid, lba, done, skip)
      ensures done < n ==> NoRoom(zones[..], usedZoneCount, hint)
    {
      hide *;
      ghost var zones0 := zones[..];
      Parts();
      NothingPlaced(zones0, usedZoneCount, hint, fid, lba, skip);
      done := 0;
      for z := 0 to usedZoneCount
        invariant Valid() && done <= n && disk.readTotals == old(disk.readTotals)
        invariant Placed(zones0, usedZoneCount, zones[..], usedZoneCount, hint, fid, lba, done, skip)
        invariant done < n ==> NoRoom(zones[..], z, hint)
      {
        ghost var zones1 := zones[..];
        var taken := FillIfOpen(z, fid, lba + done, n - done, skip, hint);
        PlacedMore(zones0, usedZoneCount, zones1, usedZoneCount, zones[..], usedZoneCount, hint, fid, lba, done, taken, skip);
        done := done + taken;
        if n <= done {
          break;
        }
      }
    }

    /** One turn of the second loop: a new zone of the hinted type takes what it can. */
    method OpenAndFill(fid: nat, lba: nat, n: nat, skip: Option<nat>, hint: int) returns (taken: nat)
      requires Valid() && usedZoneCount < zones.Length && NoRoom(zones[..], usedZoneCount, hint) && 0 < n
      modifies `usedZoneCount, `cmrBoundary, `smrBoundary, `cmrCount, `smrCount, `blockRemain, zones
      modifies disk, disk.storage, disk.ltp, disk.band, disk.report
      ensures Valid() && taken <= n && usedZoneCount == old(usedZoneCount) + 1
      ensures disk.readTotals == old(disk.readTotals)
      ensures Placed(old(zones[..]), old(usedZoneCount), zones[..], usedZoneCount, hint, fid, lba, taken, skip)
      ensures taken < n ==> NoRoom(zones[..], usedZoneCount, hint)
    {
      hide *;
      ghost var zones0, z := zones[..], usedZoneCount;
      Parts();
      OpenZone(hint);
      ghost var zones1 := zones[..];
      ReadyToFill(zones0, zones1, z, hint);
      taken := FillZone(usedZoneCount - 1, fid, lba, n, skip, true);
      SomethingTaken(zones1, zones[..], z, fid, lba, taken, n, skip);
      OpenPlaces(zones0, zones1, zones[..], z, hint, fid, lba, taken, skip);
      if taken < n { NoRoomBehind(zones1, zones[..], z, ToPlace(fid, lba, taken, skip), hint); }
    }

    /** The second loop of a placement: new zones, as long as there are any. */
    method FillNew(fid: nat, lba: nat, n: nat, skip: Option<nat>, hint: int) returns (done: nat)
      requires Valid() && (0 < n ==> NoRoom(zones[..], usedZoneCount, hint))
      modifies `usedZoneCount, `cmrBoundary, `smrBoundary, `cmrCount, `smrCount, `blockRemain, zones
      modifies disk, disk.storage, disk.ltp, disk.band, disk.report
      ensures Valid() && done <= n && old(usedZoneCount) <= usedZoneCount <= zones.Length
      ensures disk.readTotals == old(disk.readTotals)
      ensures Placed(old(zones[..]), old(usedZoneCount), zones[..], usedZoneCount, hint, fid, lba, done, skip)
      ensures done < n ==> usedZoneCount == zones.Length && NoRoom(zones[..], usedZoneCount, hint)
    {
      hide *;
      ghost var zones0, used0 := zones[..], usedZoneCount;
      Parts();
      NothingPlaced(zones0, used0, hint, fid, lba, skip);
      done := 0;
      while done < n && usedZoneCount < zones.Length
        invariant Valid() && done <= n && used0 <= usedZoneCount <= zones.Length
        invariant disk.readTotals == old(disk.readTotals)
        invariant Placed(zones0, used0, zones[..], usedZoneCount, hint, fid, lba, done, skip)
        invariant done < n ==> NoRoom(zones[..], usedZoneCount, hint)
        decreases zones.Length - usedZoneCount
      {
        ghost var zones1, used1 := zones[..], usedZoneCount;
        var taken := OpenAndFill(fid, lba + done, n - done, skip, hint);
        PlacedMore(zones0, used0, zones1, used1, zones[..], usedZoneCount, hint, fid, lba, done, taken, skip);
        done := done + taken;
      }
    }

    /**
      Placing a request: its records, less the one updated in place, go to the end of the log of the hinted type,
      in order. Something is left over only when every zone is in use and none of the type has room.
     */
    method Place(fid: nat, lba: nat, n: nat, skip: Option<nat>, hint: int) returns (done: nat)
      requires Valid()
      modifies `usedZoneCount, `cmrBoundary, `smrBoundary, `cmrCount, `smrCount, `blockRemain, zones
      modifies disk, disk.storage, disk.ltp, disk.band, disk.report
      ensures Valid() && done <= n && old(usedZoneCount) <= usedZoneCount <= zones.Length
      ensures disk.readTotals == old(disk.readTotals)
      ensures Placed(old(zones[..]), old(usedZoneCount), zones[..], usedZoneCount, hint, fid, lba, done, skip)
      ensures done < n ==> usedZoneCount == zones.Length && NoRoom(zones[..], usedZoneCount, hint)
    {
      hide *;
      ghost var zones0, used0 := zones[..], usedZoneCount;
      var first := FillUsed(fid, lba, n, skip, hint);
      ghost var zones1 := zones[..];
      var second := FillNew(fid, lba + first, n - first, skip, hint);
      PlacedMore(zones0, used0, zones1, used0, zones[..], usedZoneCount, hint, fid, lba, first, second, skip);
      done := first + second;
    }

    // ----- updates in place ---------------------------------------------------------------

    /** Writing a track that the file owns changes no owner. */
    method WriteOwnTrack(t: nat, fid: nat)
      requires disk.Valid() && disk.build == FluidSMR && InRange(disk.maxBlockNum, t, 1)
      requires t in disk.Owners() && disk.Owners()[t] == fid
      modifies disk, disk.storage, disk.ltp, disk.band, disk.report
      ensures disk.Valid() && disk.Owners() == old(disk.Owners())
      ensures disk.readTotals == old(disk.readTotals)
      ensures WriteMoves(FluidSMR, disk.Owners(), old(disk.band[..]), disk.band[..], t, 1, fid)
      ensures WriteCharges(FluidSMR, disk.Owners(), old(disk.band[..]), old(disk.writeTotals), disk.writeTotals, t, 1, fid)
    {
      hide *;
      ghost var m := disk.Owners();
      var accepted := disk.LbaWrite(t, 1, fid);
      AppliedWrite(m, disk.maxBlockNum, t, 1, fid);
      OwnTrackStays(m, t, fid);
    }

    /** The slot already belongs to the file, so the disk changes no owner; only this can turn a band RMW. */
    method UpdateInPlace(z: nat, j: nat, fid: nat)
      requires Valid() && z < usedZoneCount && j < zones[z].writeHead
      requires zones[z].blocks[j].record.fid == fid
      modifies disk, disk.storage, disk.ltp, disk.band, disk.report, `rewritten, `updates
      ensures Valid() && disk.Owners() == old(disk.Owners())
      ensures disk.readTotals == old(disk.readTotals)
      ensures HeadsStay(old(disk.band[..]), disk.band[..])
      ensures rewritten == old(rewritten) + Turned(zones[..], Some(Position(z, j))) && updates == old(updates) + 1
    {
      hide *;
      Parts();
      ghost var m, bands0, t0, p := disk.Owners(), disk.band[..], disk.writeTotals, Position(z, j);
      SlotInRange(zones[..], usedZoneCount, z, j, disk.maxBlockNum);
      SlotTrack(zones[..], usedZoneCount, z, j, bands0, m);
      WriteOwnTrack(zones[z].logicalLba + j, fid);
      UpdateStep(zones[..], usedZoneCount, p, bands0, disk.band[..], m, fid, t0, disk.writeTotals, rewritten);
      rewritten, updates := rewritten + Turned(zones[..], Some(p)), updates + 1;
      Whole();
    }

    /** The scan over the written slots of a zone. */
    method FindInZone(z: nat, r: Record) returns (slot: Option<nat>)
      requires z < zones.Length && zones[z].writeHead <= |zones[z].blocks|
      ensures slot.Some? ==> HoldsAt(zones[..], z, slot.value, r) && forall j: nat :: j < slot.value ==> !HoldsAt(zones[..], z, j, r)
      ensures slot.None? ==> forall j: nat :: !HoldsAt(zones[..], z, j, r)
    {
      for j := 0 to zones[z].writeHead
        invariant forall i: nat :: i < j ==> !HoldsAt(zones[..], z, i, r)
      {
        if zones[z].blocks[j].record.fid == r.fid && zones[z].blocks[j].record.lba == r.lba {
          return Some(j);
        }
      }
      slot := None;
    }

    /** The scan over the zones in use. */
    method FindRecord(r: Record) returns (place: Option<Position>)
      requires usedZoneCount <= zones.Length
      requires forall z :: 0 <= z < usedZoneCount ==> zones[z].writeHead <= |zones[z].blocks|
      ensures place.Some? ==> place.value.zone < usedZoneCount && FirstAt(zones[..], place.value, r)
      ensures place.None? ==> !Recorded(zones[..], usedZoneCount, r)
    {
      for z := 0 to usedZoneCount
        invariant forall y: nat, j: nat :: y < z ==> !HoldsAt(zones[..], y, j, r)
      {
        var slot := FindInZone(z, r);
        if slot.Some? {
          return Some(Position(z, slot.value));
        }
      }
      place := None;
    }

    /** The update scan of a write: the first address of the request that is recorded for the file, and where. */
    method FindUpdate(fid: nat, lba: nat, n: nat) returns (skip: Option<nat>, place: Option<Position>)
      requires Valid()
      ensures Finds(zones[..], usedZoneCount, fid, lba, n, skip, place)
    {
      hide *;
      Parts();
      NothingRecorded(zones[..], usedZoneCount, fid, lba);
      WrittenSlotsExist(zones[..], usedZoneCount);
      for l := lba to lba + n
        invariant NoneRecorded(zones[..], usedZoneCount, fid, lba, l - lba)
      {
        var found := FindRecord(Record(fid, l));
        if found.Some? {
          FoundFirst(zones[..], usedZoneCount, fid, lba, n, l, found.value);
          return Some(l), found;
        }
        NoneRecordedMore(zones[..], usedZoneCount, fid, lba, l - lba);
      }
      skip, place := None, None;
      FoundNothing(zones[..], usedZoneCount, fid, lba, n);
    }

    /** The address the scan finds is written in place, at its first slot; the scan ends there, so there is at most one. */
    method Update(fid: nat, lba: nat, n: nat) returns (skip: Option<nat>, place: Option<Position>)
      requires Valid()
      modifies disk, disk.storage, disk.ltp, disk.band, disk.report, `rewritten, `updates
      ensures Valid() && disk.Owners() == old(disk.Owners())
      ensures disk.readTotals == old(disk.readTotals)
      ensures HeadsStay(old(disk.band[..]), disk.band[..])
      ensures Finds(zones[..], usedZoneCount, fid, lba, n, skip, place)
      ensures rewritten == old(rewritten) + Turned(zones[..], place) && updates == old(updates) + if skip.Some? then 1 else 0
    {
      hide *;
      Parts();
      HeadsStayed(disk.band[..]);
      NothingTurns(zones[..], rewritten);
      skip, place := FindUpdate(fid, lba, n);
      FoundSlot(zones[..], usedZoneCount, fid, lba, n, skip, place);
      if skip.Some? {
        UpdateInPlace(place.value.zone, place.value.slot, fid);
      }
    }

    /**
      A write. The first address of the request that is recorded is updated in place, which turns a band RMW unless it
      was the last slot its zone had written. Then, unless the free space is too small for the request, which is where
      reclaiming would start, everything else is appended to the log of the hinted type, as far as there is room.
     */
    method Write(fid: nat, lba: nat, n: nat, hint: int) returns (o: Outcome, ghost skip: Option<nat>, ghost place: Option<Position>)
      requires Valid()
      modifies `usedZoneCount, `cmrBoundary, `smrBoundary, `cmrCount, `smrCount, `blockRemain, zones
      modifies disk, disk.storage, disk.ltp, disk.band, disk.report, `rewritten, `updates
      ensures Valid() && old(usedZoneCount) <= usedZoneCount <= zones.Length
      ensures disk.readTotals == old(disk.readTotals)
      ensures Finds(old(zones[..]), old(usedZoneCount), fid, lba, n, skip, place)
      ensures rewritten == old(rewritten) + Turned(old(zones[..]), place)
      ensures updates == old(updates) + if skip.Some? then 1 else 0
      ensures o.NeedsReclaim? <==> FreeBlocks(old(zones[..]), old(usedZoneCount)) < n
      ensures o.NeedsReclaim? ==> zones[..] == old(zones[..]) && usedZoneCount == old(usedZoneCount)
      ensures o.Served? ==>
                && o.left == n - Reach(Avail(old(zones[..]), old(usedZoneCount), hint), lba, n, skip)
                && Placed(old(zones[..]), old(usedZoneCount), zones[..], usedZoneCount, hint, fid, lba, n - o.left, skip)
                && AllRecorded(zones[..], usedZoneCount, fid, lba, n - o.left)
                && (o.left > 0 ==> usedZoneCount == zones.Length && NoRoom(zones[..], usedZoneCount, hint))
      ensures KeepsRecords(old(zones[..]), old(usedZoneCount), zones[..], usedZoneCount)
      ensures AddsOnly(old(zones[..]), old(usedZoneCount), zones[..], usedZoneCount, fid, lba, n)
    {
      hide *;
      Parts();
      ghost var zones0, used0 := zones[..], usedZoneCount;
      CounterIsFree(zones0, used0, cmrBoundary, smrBoundary, cmrCount, smrCount, blockRemain);
      var updated, at := Update(fid, lba, n);
      skip, place := updated, at;
      FoundSlot(zones0, used0, fid, lba, n, skip, place);
      if blockRemain < n {
        SameKeepsRecords(zones0, used0);
        SameAddsNothing(zones0, used0, fid, lba, n);
        return NeedsReclaim, skip, place;
      }
      var done := Place(fid, lba, n, updated, hint);
      PlacementIsExact(zones0, used0, zones[..], usedZoneCount, hint, fid, lba, done, n, updated);
      PlacedIsRecorded(zones0, used0, zones[..], usedZoneCount, hint, fid, lba, done, updated);
      PlacedAddsOnly(zones0, used0, zones[..], usedZoneCount, hint, fid, lba, done, n, updated);
      o := Served(n - done);
    }

    // ----- reads and deletes --------------------------------------------------------------

    /** The scan that counts the records of a zone a request is after; no written slot is sealed. */
    method CountRecords(z: nat, wanted: Record -> bool) returns (found: nat)
      requires z < zones.Length && ZoneValid(zones[z])
      ensures found == FoundIn(zones[z], wanted)
    {
      found := 0;
      for j := 0 to zones[z].writeHead
        invariant found == CountIn(zones[z].blocks, j, wanted)
      {
        if zones[z].blocks[j].isSealed {
          break;
        }
        if wanted(zones[z].blocks[j].record) {
          found := found + 1;
        }
      }
    }

    /** The disk read both requests issue for what they found in a zone, which always lies on the disk. */
    method ReadZone(z: nat, found: nat, fid: nat)
      requires Valid() && z < usedZoneCount && 0 < found <= zones[z].writeHead
      modifies disk, disk.report
      ensures Valid() && disk.Owners() == old(disk.Owners())
      ensures ReadCharges(disk.Owners(), old(disk.readTotals), disk.readTotals, zones[z].logicalLba, found, fid)
      ensures disk.writeTotals == old(disk.writeTotals)
    {
      hide *;
      Parts();
      SlotsInRange(zones[..], usedZoneCount, z, found, disk.maxBlockNum);
      var served := disk.LbaRead(zones[z].logicalLba, found, fid);
      Whole();
    }

    lemma {:induction false} ZoneIsValid(z: nat)
      requires Valid() && z < usedZoneCount
      ensures usedZoneCount <= zones.Length && ZoneValid(zones[z])
    {
    }

    /**
      A read changes neither zones nor owners. Zone by zone it looks for the part of its range that its counter still
      covers, and reads as many tracks as it finds records.
     */
    method Read(fid: nat, lba: nat, n: nat) returns (ghost totals: seq<Totals>)
      requires Valid()
      modifies disk, disk.report
      ensures Valid() && disk.Owners() == old(disk.Owners())
      ensures usedZoneCount <= zones.Length
      ensures ReadsZones(disk.Owners(), zones[..], ReadCounts(zones[..], usedZoneCount, fid, lba, n), fid, totals)
      ensures totals[0] == old(disk.readTotals) && totals[usedZoneCount] == disk.readTotals
    {
      hide *;
      Parts();
      ghost var m, all := disk.Owners(), zones[..];
      ReadStarts(m, all, fid, lba, n, disk.readTotals);
      totals := [disk.readTotals];
      var left := n;
      for z := 0 to usedZoneCount
        invariant Valid() && disk.Owners() == m && |totals| == z + 1
        invariant ReadsZones(m, all, ReadCounts(all, z, fid, lba, n), fid, totals)
        invariant totals[0] == old(disk.readTotals) && totals[z] == disk.readTotals
        invariant left == LeftToRead(all, z, fid, lba, n)
      {
        ZoneIsValid(z);
        var found := CountRecords(z, OfRange(fid, lba, Plus(lba, left)));
        LeftToReadStep(all, z, fid, lba, n);
        FoundInBound(zones[z], OfRange(fid, lba, Plus(lba, left)));
        if found > 0 {
          ReadZone(z, found, fid);
          left := Minus(left, found);
        }
        ReadCountsMore(all, z, fid, lba, n);
        ReadsOneMore(m, all, ReadCounts(all, z, fid, lba, n), fid, totals, found, disk.readTotals);
        totals := totals + [disk.readTotals];
        if found > 0 && left == 0 {
          totals := ReadEndsEarly(m, all, z + 1, usedZoneCount, fid, lba, n, totals);
          break;
        }
      }
    }

    /** A full-mark goes away; the zone stays as full as it was. */
    method ClearFull(z: nat)
      requires Valid() && z < usedZoneCount
      modifies zones
      ensures Valid() && zones[..] == old(zones[..])[z := old(zones[..])[z].(isFull := false)]
    {
      hide *;
      Parts();
      ghost var zones0 := zones[..];
      if zones[z].isFull {
        zones[z] := zones[z].(isFull := false);
      }
      ClearStep(zones0, zones[..], usedZoneCount, z, disk.band[..], disk.Owners(),
                cmrBoundary, smrBoundary, cmrCount, smrCount, blockRemain);
      Whole();
    }

    /**
      A delete removes nothing: it clears the full-marks of the zones its sweep finds records of the file in, and reads
      as many tracks of them.
     */
    method Delete(fid: nat, n: nat) returns (ghost totals: seq<Totals>)
      requires Valid()
      modifies zones, disk, disk.report
      ensures Valid() && disk.Owners() == old(disk.Owners())
      ensures usedZoneCount <= zones.Length && zones[..] == Swept(old(zones[..]), usedZoneCount, n, fid)
      ensures ReadsZones(disk.Owners(), old(zones[..]), DeleteCounts(old(zones[..]), usedZoneCount, n, fid), fid, totals)
      ensures totals[0] == old(disk.readTotals) && totals[usedZoneCount] == disk.readTotals
      ensures KeepsRecords(old(zones[..]), usedZoneCount, zones[..], usedZoneCount)
      ensures forall f: nat, lba: nat, m: nat :: AddsOnly(old(zones[..]), usedZoneCount, zones[..], usedZoneCount, f, lba, m)
    {
      hide *;
      Parts();
      ghost var zones0, m := zones[..], disk.Owners();
      SweepStarts(zones0, n, fid);
      DeleteStarts(m, zones0, n, fid, disk.readTotals);
      SweepKeepsRecords(zones0, usedZoneCount, usedZoneCount, n, fid);
      forall f: nat, lba: nat, k: nat
        ensures AddsOnly(zones0, usedZoneCount, Swept(zones0, usedZoneCount, n, fid), usedZoneCount, f, lba, k)
      {
        SweepAddsNothing(zones0, usedZoneCount, usedZoneCount, n, fid, f, lba, k);
      }
      totals := [disk.readTotals];
      var left := n;
      for z := 0 to usedZoneCount
        invariant Valid() && disk.Owners() == m && |totals| == z + 1
        invariant zones[..] == Swept(zones0, z, n, fid) && Reached(zones0, z, n, OfFile(fid))
        invariant ReadsZones(m, zones0, DeleteCounts(zones0, z, n, fid), fid, totals)
        invariant totals[0] == old(disk.readTotals) && totals[z] == disk.readTotals
        invariant left == LeftAfter(zones0, z, n, OfFile(fid))
      {
        ZoneIsValid(z);
        var found := CountRecords(z, OfFile(fid));
        SweptOne(zones0, zones[..], z, n, fid);
        LeftAfterStep(zones0, z, n, OfFile(fid));
        FoundInBound(zones[z], OfFile(fid));
        if found > 0 {
          ReadZone(z, found, fid);
          left := Minus(left, found);
          ClearFull(z);
        }
        DeleteCountsMore(zones0, z, n, fid);
        ReadsOneMore(m, zones0, DeleteCounts(zones0, z, n, fid), fid, totals, found, disk.readTotals);
        totals := totals + [disk.readTotals];
        if found > 0 && left == 0 {
          SweepStops(zones0, z, usedZoneCount, n, fid);
          totals := DeleteEndsEarly(m, zones0, z, usedZoneCount, n, fid, totals);
          break;
        }
      }
    }

    method CountLine(c: int)
      requires Valid()
      modifies disk.report`insCount, disk.report`readInsCount, disk.report`writeInsCount, disk.report`deleteInsCount
      ensures Valid() && disk.Owners() == old(disk.Owners())
      ensures disk.report.insCount == old(disk.report.insCount) + 1
    {
      hide *;
      Parts();
      disk.CountLine(c);
      Whole();
    }
  }
}
