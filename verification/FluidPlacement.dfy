/** How the zones of the FluidSMR space and the disk under them agree (main.c, src/batch.c). */
module FluidPlacement {
  import opened Geometry
  import opened ZoneSlots
  import opened Ascending
  import opened Batch
  import opened Bands
  import opened Runs
  import opened Ownership
  import opened SmrDisk
  import opened FluidZones

  /** The disk owns exactly the tracks below the zone's head, each for the file its slot names. */
  ghost predicate Owns(m: Owners, z: Zone) {
    && |z.blocks| == BAND_TRACKS
    && forall t: nat :: z.logicalLba <= t < z.logicalLba + BAND_TRACKS ==>
         && (t in m <==> t < z.logicalLba + z.writeHead)
         && (t in m ==> m[t] == z.blocks[t - z.logicalLba].record.fid)
  }

  /** The last track a zone has written, or its first one while it is empty. */
  function LastTrack(z: Zone): nat {
    z.logicalLba + if z.writeHead == 0 then 0 else z.writeHead - 1
  }

  /** The band is of the zone's kind; a shingled band's head is the last track written. */
  ghost predicate Serves(b: Band, z: Zone) {
    (b.flagCMR <==> z.zoneType == 0) && (z.zoneType != 0 ==> b.writeHead == LastTrack(z))
  }

  /** A band between the two boundaries is as init_band left it, and empty. */
  ghost predicate Spare(b: Band, index: nat, m: Owners) {
    !b.flagCMR && b.writeHead == index * BAND_TRACKS && forall t: nat :: InBand(t, index) ==> t !in m
  }

  ghost predicate OnBands(zones: seq<Zone>, used: nat, bands: seq<Band>, m: Owners) {
    && used <= |zones| == |bands|
    && (forall z: nat :: z < used ==> Owns(m, zones[z]) && Serves(bands[ZoneBand(zones, z)], zones[z]))
    && (forall b :: CmrBefore(zones, used) <= b < |bands| - (used - CmrBefore(zones, used)) ==> Spare(bands[b], b, m))
  }

  /** A range of tracks was claimed for a file, and nothing else changed hands. */
  ghost predicate RangeClaimed(m: Owners, m': Owners, lo: nat, k: nat, fid: nat) {
    && (forall t: nat :: t in m' <==> t in m || lo <= t < lo + k)
    && (forall t: nat :: t in m' ==> m'[t] == if lo <= t < lo + k then fid else m[t])
  }

  /** Where the head of a band is after the tracks `lo` up to `lo + k` of it were written. */
  function HeadAfter(b: Band, lo: nat, k: nat): nat {
    if b.flagCMR || lo + k <= b.writeHead + 1 || k == 0 then b.writeHead else lo + k - 1
  }

  /** The tracks `lo` up to `lo + k` of band `b` were written: only that band moves, and its head to the last of them. */
  ghost predicate OnlyMoves(bands: seq<Band>, bands': seq<Band>, b: nat, lo: nat, k: nat) {
    && b < |bands| == |bands'|
    && (forall c :: 0 <= c < |bands| && c != b ==> bands'[c] == bands[c])
    && bands'[b].flagCMR == bands[b].flagCMR
    && bands'[b].writeHead == HeadAfter(bands[b], lo, k)
  }

  // ----- one write of the disk to free or own tracks -----------------------------------------

  /** When no track of a range belongs to another file, the disk takes the whole range. */
  lemma {:induction false} WholeRangeIsClaimed(m: Owners, lo: nat, k: nat, fid: nat)
    requires forall t: nat :: lo <= t < lo + k ==> (t in m ==> m[t] == fid)
    ensures var s := Claimable(m, lo, k, fid); var tracks := Between(s, lo, lo + k);
      && (forall t: nat :: t in s <==> lo <= t < lo + k)
      && |s| == |tracks| == k && StrictlyAscending(tracks) && (s == {} <==> k == 0)
      && forall i :: 0 <= i < k ==> tracks[i] == lo + i
  {
    var s := Claimable(m, lo, k, fid);
    BetweenFull(s, lo, lo + k);
    BetweenCardinality(s, lo, lo + k);
  }

  /** The tracks `lo` up to `lo + k`, all in band `b`. */
  ghost predicate ExtentIn(b: nat, tracks: seq<nat>, lo: nat, k: nat) {
    && 0 < k == |tracks| && b * BAND_TRACKS <= lo && lo + k <= (b + 1) * BAND_TRACKS
    && StrictlyAscending(tracks)
    && forall i :: 0 <= i < k ==> tracks[i] == lo + i
  }

  lemma {:induction false} ExtentMissesBand(bands: seq<Band>, tracks: seq<nat>, lo: nat, k: nat, b: nat, c: nat)
    requires ExtentIn(b, tracks, lo, k) && b < |bands| && c < |bands| && c != b
    ensures OnDisk(|bands|, tracks) && TouchAll(true, bands, tracks)[c] == bands[c]
  {
    TouchAllEffect(true, bands, tracks, c);
    assert Touched(true, bands, tracks, c) == {};
  }

  lemma {:induction false} ExtentMovesBand(bands: seq<Band>, tracks: seq<nat>, lo: nat, k: nat, b: nat)
    requires ExtentIn(b, tracks, lo, k) && b < |bands|
    ensures OnDisk(|bands|, tracks)
    ensures var d := TouchAll(true, bands, tracks)[b];
      && (bands[b].flagCMR ==> d == bands[b])
      && d.writeHead == HeadAfter(bands[b], lo, k)
      && (d.flagRMW <==> bands[b].flagRMW || (!bands[b].flagCMR && lo < bands[b].writeHead))
  {
    var touched := Touched(true, bands, tracks, b);
    TouchAllEffect(true, bands, tracks, b);
    assert forall t :: t in touched ==> lo <= t < lo + k;
    if bands[b].flagCMR {
      assert touched == {};
    } else {
      assert tracks[0] == lo && lo in tracks && lo in touched;
    }
  }

  /** A write to free tracks of a range claims the range. */
  lemma {:induction false} FreeRangeClaimed(m: Owners, lo: nat, k: nat, fid: nat)
    requires forall t: nat :: lo <= t < lo + k ==> t !in m
    ensures RangeClaimed(m, Claim(m, Claimable(m, lo, k, fid), fid), lo, k, fid)
  {
    WholeRangeIsClaimed(m, lo, k, fid);
  }

  /** The bands after a write into band `b`: only that band moves, and only as far as the last track. */
  lemma {:induction false} ExtentMoves(m: Owners, bands: seq<Band>, bands': seq<Band>, lo: nat, k: nat, fid: nat, b: nat)
    requires k > 0 && b < |bands| && b * BAND_TRACKS <= lo && lo + k <= (b + 1) * BAND_TRACKS
    requires forall t: nat :: lo <= t < lo + k ==> (t in m ==> m[t] == fid)
    requires WriteMoves(FluidSMR, m, bands, bands', lo, k, fid)
    ensures OnlyMoves(bands, bands', b, lo, k)
    ensures bands[b].flagCMR ==> bands'[b] == bands[b]
    ensures bands'[b].flagRMW <==> bands[b].flagRMW || (!bands[b].flagCMR && lo < bands[b].writeHead)
  {
    var tracks := Between(Claimable(m, lo, k, fid), lo, lo + k);
    WholeRangeIsClaimed(m, lo, k, fid);
    ExtentMovesBand(bands, tracks, lo, k, b);
    forall c | 0 <= c < |bands| && c != b ensures bands'[c] == bands[c] {
      ExtentMissesBand(bands, tracks, lo, k, b, c);
    }
  }

  lemma {:induction false} PlannedAsOneRun(bands: seq<Band>, live: set<nat>, tracks: seq<nat>, lo: nat, k: nat, b: nat)
    requires ExtentIn(b, tracks, lo, k) && b < |bands|
    requires bands[b].flagCMR || bands[b].writeHead <= lo
    requires forall c :: 0 <= c < |bands| ==> !bands[c].flagRMW
    ensures OnDisk(|bands|, tracks)
    ensures Tally(SplitRuns(FluidPlan(bands, live, tracks))) == PhysicalCost(k)
  {
    FreshFluidPlanIsPhysical(bands, live, tracks);
    OneRunTally(Physical(tracks));
  }

  /** While no band is RMW, a write at or past the head is charged as one run of its own tracks. */
  lemma {:induction false} ExtentIsOneRun(m: Owners, bands: seq<Band>, t0: Totals, t: Totals, lo: nat, k: nat, fid: nat, b: nat)
    requires k > 0 && b < |bands| && b * BAND_TRACKS <= lo && lo + k <= (b + 1) * BAND_TRACKS
    requires forall t: nat :: lo <= t < lo + k ==> (t in m ==> m[t] == fid)
    requires WriteCharges(FluidSMR, m, bands, t0, t, lo, k, fid)
    requires bands[b].flagCMR || bands[b].writeHead <= lo
    requires forall c :: 0 <= c < |bands| ==> !bands[c].flagRMW
    ensures IsSum(t, t0, PhysicalCost(k))
  {
    var s := Claimable(m, lo, k, fid);
    WholeRangeIsClaimed(m, lo, k, fid);
    PlannedAsOneRun(bands, m.Keys + s, Between(s, lo, lo + k), lo, k, b);
  }

  /** Bands are RMW because of updates in place only, and exactly these updates made the disk rewrite anything. */
  ghost predicate FlagsExplained(bands: seq<Band>, rewritten: set<nat>, t: Totals) {
    && (forall b :: 0 <= b < |bands| ==> (bands[b].flagRMW <==> b in rewritten))
    && (if rewritten == {} then OnlyPhysical(t) else t.rewrite > 0)
  }

  lemma {:induction false} ChargesGrow(m: Owners, bands: seq<Band>, t: Totals, t': Totals, lo: nat, k: nat, fid: nat)
    requires WriteCharges(FluidSMR, m, bands, t, t', lo, k, fid)
    ensures t.rewrite <= t'.rewrite
  {
    hide Claimable, Between, WriteList, OnDisk, SplitRuns, Tally;
  }

  /** A write of a whole range charges each of its tracks once. */
  lemma {:induction false} RangeIsChargedOnce(m: Owners, bands: seq<Band>, t: Totals, t': Totals, lo: nat, k: nat, fid: nat)
    requires k > 0 && forall t: nat :: lo <= t < lo + k ==> (t in m ==> m[t] == fid)
    requires WriteCharges(FluidSMR, m, bands, t, t', lo, k, fid)
    ensures t'.direct == t.direct + k
  {
    hide SplitRuns, Tally, FluidPlan, CountPhysical;
    var s := Claimable(m, lo, k, fid);
    var tracks := Between(s, lo, lo + k);
    WholeRangeIsClaimed(m, lo, k, fid);
    FluidPlanPhysicalCount(bands, m.Keys + s, tracks);
    WriteIsPhysicalSize(FluidPlan(bands, m.Keys + s, tracks));
  }

  /** Claiming a range of free tracks adds that many owned ones. */
  lemma {:induction false} OwnersGrow(m: Owners, m': Owners, lo: nat, k: nat, fid: nat)
    requires RangeClaimed(m, m', lo, k, fid) && forall t: nat :: lo <= t < lo + k ==> t !in m
    ensures |m'| == |m| + k
  {
    var s := Claimable(m, lo, k, fid);
    WholeRangeIsClaimed(m, lo, k, fid);
    assert m'.Keys == m.Keys + s && m.Keys !! s;
    BetweenCardinality(s, lo, lo + k);
    assert |m'| == |m'.Keys| && |m| == |m.Keys|;
  }

  /** Untouched zones on a freshly initialised disk. */
  lemma {:induction false} FreshSpace(zones: seq<Zone>, bands: seq<Band>, m: Owners, t: Totals, blockRemain: nat)
    requires 0 < |zones| == |bands| && m == map[] && OnlyPhysical(t) && blockRemain == BAND_TRACKS * |zones|
    requires forall z :: 0 <= z < |zones| ==> Untouched(zones[z])
    requires forall b :: 0 <= b < |bands| ==> InitialBand(bands[b], b)
    ensures SpaceValid(zones, 0) && OnBands(zones, 0, bands, m) && FlagsExplained(bands, {}, t)
    ensures Tallied(zones, 0, 0, |zones| - 1, 0, 0, blockRemain)
  {
  }

  /** An append to fresh tracks turns no band RMW and, while there is none, costs a single run. */
  lemma {:induction false} FreshExtent(m: Owners, bands: seq<Band>, bands': seq<Band>, t: Totals, t': Totals,
                                       lo: nat, k: nat, fid: nat, b: nat, rewritten: set<nat>)
    requires k > 0 && b < |bands| && b * BAND_TRACKS <= lo && lo + k <= (b + 1) * BAND_TRACKS
    requires forall t: nat :: lo <= t < lo + k ==> t !in m
    requires bands[b].flagCMR || bands[b].writeHead <= lo
    requires WriteMoves(FluidSMR, m, bands, bands', lo, k, fid) && WriteCharges(FluidSMR, m, bands, t, t', lo, k, fid)
    requires FlagsExplained(bands, rewritten, t)
    ensures OnlyMoves(bands, bands', b, lo, k) && FlagsExplained(bands', rewritten, t')
    ensures rewritten == {} ==> IsSum(t', t, PhysicalCost(k))
  {
    ExtentMoves(m, bands, bands', lo, k, fid, b);
    ChargesGrow(m, bands, t, t', lo, k, fid);
    if rewritten == {} { ExtentIsOneRun(m, bands, t, t', lo, k, fid, b); }
  }

  // ----- appends, openings and updates keep zones and disk in agreement --------------------------

  /** The free tracks of a zone lie in band `b`, at or past its head, and belong to nobody. */
  ghost predicate Ready(z: Zone, b: nat, bands: seq<Band>, m: Owners) {
    var lo, k := z.logicalLba + z.writeHead, FreeIn(z);
    && b < |bands| && b * BAND_TRACKS <= lo && lo + k <= (b + 1) * BAND_TRACKS
    && (forall t: nat :: lo <= t < lo + k ==> t !in m)
    && (bands[b].flagCMR || bands[b].writeHead <= lo)
  }

  lemma {:induction false} UsedZonesAreReady(zones: seq<Zone>, used: nat, z: nat, bands: seq<Band>, m: Owners)
    requires SpaceValid(zones, used) && OnBands(zones, used, bands, m) && z < used
    ensures Ready(zones[z], ZoneBand(zones, z), bands, m)
  {
    assert Owns(m, zones[z]) && Serves(bands[ZoneBand(zones, z)], zones[z]);
  }

  /** A zone in another band does not notice an append. */
  lemma {:induction false} OtherZoneKeepsBand(z: Zone, c: nat, b: nat, bands: seq<Band>, bands': seq<Band>,
                                              m: Owners, m': Owners, lo: nat, k: nat, fid: nat)
    requires c < |bands| && c != b && z.logicalLba == c * BAND_TRACKS
    requires b * BAND_TRACKS <= lo && lo + k <= (b + 1) * BAND_TRACKS
    requires OnlyMoves(bands, bands', b, lo, k) && RangeClaimed(m, m', lo, k, fid)
    requires Owns(m, z) && Serves(bands[c], z)
    ensures Owns(m', z) && Serves(bands'[c], z)
  {
  }

  lemma {:induction false} SpareBandStays(bands: seq<Band>, bands': seq<Band>, b: nat, c: nat, m: Owners, m': Owners,
                                          lo: nat, k: nat, fid: nat)
    requires c < |bands| && c != b && b * BAND_TRACKS <= lo && lo + k <= (b + 1) * BAND_TRACKS
    requires OnlyMoves(bands, bands', b, lo, k) && RangeClaimed(m, m', lo, k, fid)
    requires Spare(bands[c], c, m)
    ensures Spare(bands'[c], c, m')
  {
  }

  /** The zone that takes the append owns the new tracks too. */
  lemma {:induction false} FilledZoneKeepsBand(z: Zone, z': Zone, b: nat, bands: seq<Band>, bands': seq<Band>,
                                               m: Owners, m': Owners, records: seq<Record>, fid: nat)
    requires z.logicalLba == b * BAND_TRACKS && z.writeHead + |records| <= |z.blocks|
    requires z' == Filled(z, records).(isFull := z'.isFull)
    requires forall i :: 0 <= i < |records| ==> records[i].fid == fid
    requires var lo := z.logicalLba + z.writeHead;
      OnlyMoves(bands, bands', b, lo, |records|) && RangeClaimed(m, m', lo, |records|, fid)
    requires Owns(m, z) && Serves(bands[b], z)
    ensures Owns(m', z') && Serves(bands'[b], z')
  {
  }

  lemma {:induction false} AppendKeepsZone(zones: seq<Zone>, zones': seq<Zone>, used: nat, z: nat, fid: nat,
                                           records: seq<Record>,
                                           bands: seq<Band>, bands': seq<Band>, m: Owners, m': Owners, y: nat)
    requires |bands'| == |bands| == |zones| == |zones'|
    requires SpaceValid(zones, used) && OnBands(zones, used, bands, m)
    requires z < used && y < used && AppendsTo(zones, zones', z, records)
    requires forall i :: 0 <= i < |records| ==> records[i].fid == fid
    requires var lo := zones[z].logicalLba + zones[z].writeHead;
      OnlyMoves(bands, bands', ZoneBand(zones, z), lo, |records|) && RangeClaimed(m, m', lo, |records|, fid)
    ensures Owns(m', zones'[y]) && Serves(bands'[ZoneBand(zones, y)], zones'[y])
  {
    var b, lo := ZoneBand(zones, z), zones[z].logicalLba + zones[z].writeHead;
    if y == z {
      FilledZoneKeepsBand(zones[z], zones'[z], b, bands, bands', m, m', records, fid);
    } else {
      BandsAreDistinct(zones, used, if y < z then y else z, if y < z then z else y);
      OtherZoneKeepsBand(zones[y], ZoneBand(zones, y), b, bands, bands', m, m', lo, |records|, fid);
    }
  }

  /** After an append, written to the disk as one extent, zones and disk agree again. */
  lemma {:induction false} AppendKeepsBands(zones: seq<Zone>, zones': seq<Zone>, used: nat, z: nat, fid: nat,
                                            records: seq<Record>,
                                            bands: seq<Band>, bands': seq<Band>, m: Owners, m': Owners)
    requires SpaceValid(zones, used) && OnBands(zones, used, bands, m)
    requires z < used && AppendsTo(zones, zones', z, records)
    requires forall i :: 0 <= i < |records| ==> records[i].fid == fid
    requires var lo := zones[z].logicalLba + zones[z].writeHead;
      OnlyMoves(bands, bands', ZoneBand(zones, z), lo, |records|) && RangeClaimed(m, m', lo, |records|, fid)
    ensures OnBands(zones', used, bands', m')
  {
    AppendKeepsSpace(zones, zones', used, z, records);
    forall y: nat | y < used ensures Owns(m', zones'[y]) && Serves(bands'[ZoneBand(zones', y)], zones'[y]) {
      AppendKeepsZone(zones, zones', used, z, fid, records, bands, bands', m, m', y);
    }
    BandsStayOnTheirSide(zones, used, z);
    forall c | CmrBefore(zones, used) <= c < |bands| - (used - CmrBefore(zones, used)) ensures Spare(bands'[c], c, m') {
      SpareBandStays(bands, bands', ZoneBand(zones, z), c, m, m',
                     zones[z].logicalLba + zones[z].writeHead, |records|, fid);
    }
  }

  /** So an append keeps everything in order. */
  lemma {:induction false} AppendStep(zones: seq<Zone>, zones': seq<Zone>, used: nat, z: nat, fid: nat, lba: nat, taken: nat,
      skip: Option<nat>, bands: seq<Band>, bands': seq<Band>, m: Owners, m': Owners,
      cmrBoundary: nat, smrBoundary: nat, cmrCount: nat, smrCount: nat, blockRemain: nat, blockRemain': nat)
    requires SpaceValid(zones, used) && OnBands(zones, used, bands, m)
    requires z < used && AppendsTo(zones, zones', z, ToPlace(fid, lba, taken, skip))
    requires Tallied(zones, used, cmrBoundary, smrBoundary, cmrCount, smrCount, blockRemain)
    requires var lo, k := zones[z].logicalLba + zones[z].writeHead, |ToPlace(fid, lba, taken, skip)|;
      && OnlyMoves(bands, bands', ZoneBand(zones, z), lo, k) && RangeClaimed(m, m', lo, k, fid)
      && blockRemain' == blockRemain - k
    ensures SpaceValid(zones', used) && OnBands(zones', used, bands', m')
    ensures Tallied(zones', used, cmrBoundary, smrBoundary, cmrCount, smrCount, blockRemain')
  {
    var records := ToPlace(fid, lba, taken, skip);
    ToPlaceFile(fid, lba, taken, skip);
    AppendKeepsSpace(zones, zones', used, z, records);
    AppendKeepsBands(zones, zones', used, z, fid, records, bands, bands', m, m');
  }

  lemma {:induction false} NoExtent(bands: seq<Band>, m: Owners, b: nat, lo: nat, fid: nat)
    requires b < |bands|
    ensures OnlyMoves(bands, bands, b, lo, 0) && RangeClaimed(m, m, lo, 0, fid)
  {
  }

  lemma {:induction false} NothingMoves(zones: seq<Zone>, used: nat, z: nat, bands: seq<Band>, m: Owners, lo: nat, fid: nat)
    requires used <= |zones| == |bands| && z < used
    ensures OnlyMoves(bands, bands, ZoneBand(zones, z), lo, 0) && RangeClaimed(m, m, lo, 0, fid)
  {
  }

  /** Clearing a full-mark keeps everything in order. */
  lemma {:induction false} ClearStep(zones: seq<Zone>, zones': seq<Zone>, used: nat, z: nat, bands: seq<Band>, m: Owners,
      cmrBoundary: nat, smrBoundary: nat, cmrCount: nat, smrCount: nat, blockRemain: nat)
    requires used <= |zones| == |bands|
    requires SpaceValid(zones, used) && OnBands(zones, used, bands, m) && z < used
    requires Tallied(zones, used, cmrBoundary, smrBoundary, cmrCount, smrCount, blockRemain)
    requires zones' == zones[z := zones[z].(isFull := false)]
    ensures SpaceValid(zones', used) && OnBands(zones', used, bands, m)
    ensures Tallied(zones', used, cmrBoundary, smrBoundary, cmrCount, smrCount, blockRemain)
  {
    hide *;
    ClearIsAppend(zones, zones', used, z, 0);
    NothingMoves(zones, used, z, bands, m, zones[z].logicalLba + zones[z].writeHead, 0);
    AppendStep(zones, zones', used, z, 0, 0, 0, None, bands, bands, m, m,
               cmrBoundary, smrBoundary, cmrCount, smrCount, blockRemain, blockRemain);
  }

  /** Opening a zone takes a spare band at the end of its kind. */
  lemma {:induction false} OpenKeepsBands(zones: seq<Zone>, zones': seq<Zone>, used: nat, hint: int,
                                          bands: seq<Band>, bands': seq<Band>, m: Owners, b: nat)
    requires SpaceValid(zones, used) && OnBands(zones, used, bands, m)
    requires Opens(zones, zones', used, hint) && NoRoom(zones, used, hint) && b == NextBand(zones, used, hint)
    requires bands' == bands[b := bands[b].(flagCMR := hint == 0)]
    ensures OnBands(zones', used + 1, bands', m)
  {
    OpenKeepsSpace(zones, zones', used, hint);
    forall y: nat | y < used ensures Owns(m, zones'[y]) && Serves(bands'[ZoneBand(zones', y)], zones'[y]) {
      BandsAreDistinct(zones', used + 1, y, used);
    }
    assert Spare(bands[b], b, m);
    forall t: nat | zones'[used].logicalLba <= t < zones'[used].logicalLba + BAND_TRACKS ensures t !in m {
      assert InBand(t, b);
    }
  }

  /** So opening a zone keeps everything in order. */
  lemma {:induction false} OpenStep(zones: seq<Zone>, zones': seq<Zone>, used: nat, hint: int,
      bands: seq<Band>, bands': seq<Band>, m: Owners, b: nat, rewritten: set<nat>, t: Totals,
      cmrBoundary: nat, smrBoundary: nat, cmrCount: nat, smrCount: nat, blockRemain: nat,
      cmrBoundary': nat, smrBoundary': nat, cmrCount': nat, smrCount': nat, blockRemain': nat)
    requires SpaceValid(zones, used) && OnBands(zones, used, bands, m) && FlagsExplained(bands, rewritten, t)
    requires Opens(zones, zones', used, hint) && NoRoom(zones, used, hint) && b == NextBand(zones, used, hint)
    requires bands' == bands[b := bands[b].(flagCMR := hint == 0)]
    requires Tallied(zones, used, cmrBoundary, smrBoundary, cmrCount, smrCount, blockRemain)
    requires CountsOpening(hint, cmrBoundary, smrBoundary, cmrCount, smrCount, blockRemain,
                           cmrBoundary', smrBoundary', cmrCount', smrCount', blockRemain')
    ensures SpaceValid(zones', used + 1) && OnBands(zones', used + 1, bands', m) && FlagsExplained(bands', rewritten, t)
    ensures Tallied(zones', used + 1, cmrBoundary', smrBoundary', cmrCount', smrCount', blockRemain')
  {
    OpenKeepsSpace(zones, zones', used, hint);
    OpenKeepsBands(zones, zones', used, hint, bands, bands', m, b);
    OpenKeepsTally(zones, zones', used, hint, cmrBoundary, smrBoundary, cmrCount, smrCount, blockRemain,
                   cmrBoundary', smrBoundary', cmrCount', smrCount', blockRemain');
  }

  /** The next band is spare and the next zone untouched. */
  lemma {:induction false} ReadyToOpen(zones: seq<Zone>, used: nat, hint: int, bands: seq<Band>, m: Owners,
      cmrBoundary: nat, smrBoundary: nat, cmrCount: nat, smrCount: nat, blockRemain: nat)
    requires used < |zones| && SpaceValid(zones, used) && OnBands(zones, used, bands, m)
    requires Tallied(zones, used, cmrBoundary, smrBoundary, cmrCount, smrCount, blockRemain)
    ensures |bands| == |zones| && !bands[NextBand(zones, used, hint)].flagCMR
    ensures NextBand(zones, used, hint) == if hint == 0 then cmrBoundary else smrBoundary
    ensures Untouched(zones[used]) && blockRemain >= BAND_TRACKS
  {
    assert Spare(bands[NextBand(zones, used, hint)], NextBand(zones, used, hint), m);
  }

  lemma {:induction false} SlotInRange(zones: seq<Zone>, used: nat, z: nat, j: nat, blocks: nat)
    requires SpaceValid(zones, used) && z < used && j < zones[z].writeHead && blocks == |zones| * BAND_TRACKS
    ensures j < |zones[z].blocks| && ZoneBand(zones, z) < |zones| && InRange(blocks, zones[z].logicalLba + j, 1)
  {
  }

  lemma {:induction false} SlotsInRange(zones: seq<Zone>, used: nat, z: nat, k: nat, blocks: nat)
    requires SpaceValid(zones, used) && z < used && 0 < k <= zones[z].writeHead && blocks == |zones| * BAND_TRACKS
    ensures ZoneBand(zones, z) < |zones| && InRange(blocks, zones[z].logicalLba, k)
  {
  }

  lemma {:induction false} OwnTrackStays(m: Owners, t: nat, fid: nat)
    requires t in m && m[t] == fid
    ensures Claim(m, Claimable(m, t, 1, fid), fid) == m
  {
  }

  lemma {:induction false} ZoneOwns(zones: seq<Zone>, used: nat, z: nat, bands: seq<Band>, m: Owners)
    requires SpaceValid(zones, used) && OnBands(zones, used, bands, m) && z < used
    ensures used <= |zones| && Owns(m, zones[z]) && zones[z].writeHead <= BAND_TRACKS
  {
  }

  lemma {:induction false} ZoneLies(zones: seq<Zone>, used: nat, z: nat)
    requires SpaceValid(zones, used) && z < used
    ensures used <= |zones| && zones[z].logicalLba == ZoneBand(zones, z) * BAND_TRACKS && |zones[z].blocks| == BAND_TRACKS
  {
  }

  /** Slot `j` of a zone that names the file lies on a track of the zone's band that the file owns. */
  lemma {:induction false} SlotTrack(zones: seq<Zone>, used: nat, z: nat, j: nat, bands: seq<Band>, m: Owners)
    requires SpaceValid(zones, used) && OnBands(zones, used, bands, m)
    requires z < used && j < zones[z].writeHead
    ensures var t, b := zones[z].logicalLba + j, ZoneBand(zones, z);
      && b * BAND_TRACKS <= t < (b + 1) * BAND_TRACKS && BandOf(t) == b
      && t in m && m[t] == zones[z].blocks[j].record.fid
  {
    var b := ZoneBand(zones, z);
    ZoneOwns(zones, used, z, bands, m);
    ZoneLies(zones, used, z);
    hide SpaceValid, OnBands, ZoneBand;
    assert BandOf(b * BAND_TRACKS + j) == b;
  }

  /** The heads and kinds of all bands stayed. */
  ghost predicate HeadsStay(bands: seq<Band>, bands': seq<Band>) {
    && |bands'| == |bands|
    && forall c :: 0 <= c < |bands| ==> bands'[c].writeHead == bands[c].writeHead && bands'[c].flagCMR == bands[c].flagCMR
  }

  lemma {:induction false} HeadsStayed(bands: seq<Band>)
    ensures HeadsStay(bands, bands)
  {
  }

  lemma {:induction false} SameHeadsKeepBands(zones: seq<Zone>, used: nat, bands: seq<Band>, bands': seq<Band>, m: Owners)
    requires OnBands(zones, used, bands, m) && HeadsStay(bands, bands')
    ensures OnBands(zones, used, bands', m)
  {
  }

  /** Rewriting a track the file owns moves no head, and turns its band RMW exactly when it lies below the head. */
  lemma {:induction false} OwnTrackMoves(m: Owners, bands: seq<Band>, bands': seq<Band>, t: nat, fid: nat, b: nat)
    requires b < |bands| && b * BAND_TRACKS <= t < (b + 1) * BAND_TRACKS
    requires t in m && m[t] == fid && Dominated(bands, m.Keys)
    requires WriteMoves(FluidSMR, m, bands, bands', t, 1, fid)
    ensures HeadsStay(bands, bands')
    ensures forall c :: 0 <= c < |bands| && c != b ==> bands'[c].flagRMW == bands[c].flagRMW
    ensures bands'[b].flagRMW <==> bands[b].flagRMW || (!bands[b].flagCMR && t < bands[b].writeHead)
  {
    assert BandOf(t) == b;
    ExtentMoves(m, bands, bands', t, 1, fid, b);
  }

  /** A track lies below the head of its band exactly if it is not the last one its zone has written. */
  lemma {:induction false} BelowHeadIsNotLast(zones: seq<Zone>, used: nat, p: Position, bands: seq<Band>, m: Owners)
    requires SpaceValid(zones, used) && OnBands(zones, used, bands, m)
    requires p.zone < used && p.slot < zones[p.zone].writeHead
    ensures ZoneBand(zones, p.zone) < |bands|
    ensures var b := ZoneBand(zones, p.zone);
      Turned(zones, Some(p))
      == if !bands[b].flagCMR && zones[p.zone].logicalLba + p.slot < bands[b].writeHead then {b} else {}
    ensures !bands[ZoneBand(zones, p.zone)].flagCMR ==> bands[ZoneBand(zones, p.zone)].writeHead in m
  {
    assert Owns(m, zones[p.zone]) && Serves(bands[ZoneBand(zones, p.zone)], zones[p.zone]);
  }

  lemma {:induction false} OneRunIsPhysical(t: Totals, t': Totals, k: nat)
    requires OnlyPhysical(t) && IsSum(t', t, PhysicalCost(k))
    ensures OnlyPhysical(t')
  {
  }

  /** A track below the head makes the disk rewrite at least the track at the head. */
  lemma {:induction false} OwnTrackIsRewritten(m: Owners, bands: seq<Band>, t: Totals, t': Totals, lo: nat, fid: nat, b: nat)
    requires b < |bands| && BandOf(lo) == b && !bands[b].flagCMR
    requires lo in m && m[lo] == fid && lo < bands[b].writeHead && bands[b].writeHead in m
    requires WriteCharges(FluidSMR, m, bands, t, t', lo, 1, fid)
    ensures t'.rewrite > 0
  {
    hide SplitRuns, Tally, FluidPlan;
    var claimed := Claimable(m, lo, 1, fid);
    WholeRangeIsClaimed(m, lo, 1, fid);
    var tracks := Between(claimed, lo, lo + 1);
    assert tracks == [lo];
    RewrittenTrackHasTail(bands, m.Keys + claimed, lo, b);
    FluidPlanPhysicalCount(bands, m.Keys + claimed, tracks);
    WriteIsPhysicalSize(FluidPlan(bands, m.Keys + claimed, tracks));
  }

  /** How an update explains the flags: only a track below the head turns its band RMW, and only then is anything rewritten. */
  lemma {:induction false} OwnTrackFlags(m: Owners, bands: seq<Band>, bands': seq<Band>, lo: nat, fid: nat, b: nat,
                                         t: Totals, t': Totals, rewritten: set<nat>, turned: set<nat>)
    requires b < |bands| && b * BAND_TRACKS <= lo < (b + 1) * BAND_TRACKS
    requires lo in m && m[lo] == fid && Dominated(bands, m.Keys) && FlagsExplained(bands, rewritten, t)
    requires WriteMoves(FluidSMR, m, bands, bands', lo, 1, fid) && WriteCharges(FluidSMR, m, bands, t, t', lo, 1, fid)
    requires turned == if !bands[b].flagCMR && lo < bands[b].writeHead then {b} else {}
    requires !bands[b].flagCMR ==> bands[b].writeHead in m
    ensures FlagsExplained(bands', rewritten + turned, t')
  {
    hide WriteMoves, WriteCharges, Dominated, OnlyPhysical;
    OwnTrackMoves(m, bands, bands', lo, fid, b);
    ChargesGrow(m, bands, t, t', lo, 1, fid);
    if turned != {} {
      OwnTrackIsRewritten(m, bands, t, t', lo, fid, b);
    } else if rewritten == {} {
      assert rewritten + turned == {};
      ExtentIsOneRun(m, bands, t, t', lo, 1, fid, b);
      OneRunIsPhysical(t, t', 1);
    } else {
      assert rewritten + turned == rewritten;
    }
  }

  /** An update in place of a slot keeps zones and disk in agreement, and changes no owner and no head. */
  lemma {:induction false} UpdateStep(zones: seq<Zone>, used: nat, p: Position, bands: seq<Band>, bands': seq<Band>,
                                      m: Owners, fid: nat, t: Totals, t': Totals, rewritten: set<nat>)
    requires used <= |zones| == |bands|
    requires SpaceValid(zones, used) && OnBands(zones, used, bands, m) && Dominated(bands, m.Keys)
    requires FlagsExplained(bands, rewritten, t)
    requires p.zone < used && p.slot < zones[p.zone].writeHead && zones[p.zone].blocks[p.slot].record.fid == fid
    requires WriteMoves(FluidSMR, m, bands, bands', zones[p.zone].logicalLba + p.slot, 1, fid)
    requires WriteCharges(FluidSMR, m, bands, t, t', zones[p.zone].logicalLba + p.slot, 1, fid)
    ensures OnBands(zones, used, bands', m) && HeadsStay(bands, bands')
    ensures Claim(m, Claimable(m, zones[p.zone].logicalLba + p.slot, 1, fid), fid) == m
    ensures FlagsExplained(bands', rewritten + Turned(zones, Some(p)), t') && t'.direct == t.direct + 1
  {
    hide *;
    var lo, b := zones[p.zone].logicalLba + p.slot, ZoneBand(zones, p.zone);
    SlotTrack(zones, used, p.zone, p.slot, bands, m);
    OwnTrackStays(m, lo, fid);
    RangeIsChargedOnce(m, bands, t, t', lo, 1, fid);
    OwnTrackMoves(m, bands, bands', lo, fid, b);
    BelowHeadIsNotLast(zones, used, p, bands, m);
    OwnTrackFlags(m, bands, bands', lo, fid, b, t, t', rewritten, Turned(zones, Some(p)));
    SameHeadsKeepBands(zones, used, bands, bands', m);
  }

  /** Every used zone's band is owned as its slots say. */
  ghost predicate SlotsOwned(zones: seq<Zone>, used: nat, m: Owners) {
    used <= |zones| && forall z :: 0 <= z < used ==> Owns(m, zones[z])
  }

  lemma {:induction false} BandsOwnSlots(zones: seq<Zone>, used: nat, bands: seq<Band>, m: Owners)
    requires OnBands(zones, used, bands, m)
    ensures SlotsOwned(zones, used, m)
  {
  }

  // ----- reading zones ---------------------------------------------------------------------------

  /**
    What a sweep over zones is charged: where it found `counts[z]` records of the file, the disk reads as many tracks
    from the zone's first one on, whichever tracks hold them.
   */
  ghost predicate ReadsZones(m: Owners, zones: seq<Zone>, counts: seq<nat>, fid: nat, totals: seq<Totals>) {
    && |counts| <= |zones| && |totals| == |counts| + 1
    && forall z :: 0 <= z < |counts| ==>
         if counts[z] == 0 then totals[z + 1] == totals[z]
         else ReadCharges(m, totals[z], totals[z + 1], zones[z].logicalLba, counts[z], fid)
  }

  lemma {:induction false} NothingRead(m: Owners, zones: seq<Zone>, fid: nat, t: Totals)
    ensures ReadsZones(m, zones, [], fid, [t])
  {
  }

  lemma {:induction false} ReadsOneMore(m: Owners, zones: seq<Zone>, counts: seq<nat>, fid: nat, totals: seq<Totals>,
                                        count: nat, t: Totals)
    requires ReadsZones(m, zones, counts, fid, totals) && |counts| < |zones|
    requires if count == 0 then t == totals[|counts|]
             else ReadCharges(m, totals[|counts|], t, zones[|counts|].logicalLba, count, fid)
    ensures ReadsZones(m, zones, counts + [count], fid, totals + [t])
  {
    hide ReadCharges;
  }

  /** A sweep that stops early reads nothing from the zones it does not visit. */
  lemma {:induction false} ReadsNoMore(m: Owners, zones: seq<Zone>, counts: seq<nat>, k: nat, fid: nat, totals: seq<Totals>)
    returns (all: seq<Totals>)
    requires k <= |counts| <= |zones| && ReadsZones(m, zones, counts[..k], fid, totals)
    requires forall z :: k <= z < |counts| ==> counts[z] == 0
    ensures ReadsZones(m, zones, counts, fid, all) && all[0] == totals[0] && all[|counts|] == totals[k]
    decreases |counts| - k
  {
    hide ReadCharges;
    if k == |counts| {
      assert counts[..k] == counts;
      all := totals;
    } else {
      assert counts[..k + 1] == counts[..k] + [counts[k]];
      ReadsOneMore(m, zones, counts[..k], fid, totals, 0, totals[k]);
      all := ReadsNoMore(m, zones, counts, k + 1, fid, totals + [totals[k]]);
    }
  }

  lemma {:induction false} ReadStarts(m: Owners, zones: seq<Zone>, fid: nat, lba: nat, n: nat, t: Totals)
    ensures ReadsZones(m, zones, ReadCounts(zones, 0, fid, lba, n), fid, [t])
    ensures LeftToRead(zones, 0, fid, lba, n) == n
  {
    NothingRead(m, zones, fid, t);
    assert ReadCounts(zones, 0, fid, lba, n) == [];
  }

  /** A sweep is charged for what it finds in its zones. */
  ghost predicate SweepCharged(m: Owners, zones: seq<Zone>, counts: seq<nat>, fid: nat, t: Totals, t': Totals) {
    exists totals: seq<Totals> :: ReadsZones(m, zones, counts, fid, totals) && totals[0] == t && totals[|counts|] == t'
  }

  /** A read may stop when its counter is zero. */
  lemma {:induction false} ReadEndsEarly(m: Owners, zones: seq<Zone>, k: nat, used: nat, fid: nat, lba: nat, n: nat,
                                         totals: seq<Totals>)
    returns (all: seq<Totals>)
    requires k <= used <= |zones| && LeftToRead(zones, k, fid, lba, n) == 0
    requires ReadsZones(m, zones, ReadCounts(zones, k, fid, lba, n), fid, totals)
    ensures ReadsZones(m, zones, ReadCounts(zones, used, fid, lba, n), fid, all)
    ensures |totals| == k + 1 && all[0] == totals[0] && all[used] == totals[k]
  {
    var counts := ReadCounts(zones, used, fid, lba, n);
    assert counts[..k] == ReadCounts(zones, k, fid, lba, n);
    forall z | k <= z < used ensures counts[z] == 0 { ReadStops(zones, k, z, fid, lba, n); }
    all := ReadsNoMore(m, zones, counts, k, fid, totals);
  }

  lemma {:induction false} DeleteStarts(m: Owners, zones: seq<Zone>, n: nat, fid: nat, t: Totals)
    ensures ReadsZones(m, zones, DeleteCounts(zones, 0, n, fid), fid, [t])
  {
    NothingRead(m, zones, fid, t);
    assert DeleteCounts(zones, 0, n, fid) == [];
  }

  /** A delete may stop when its counter is zero. */
  lemma {:induction false} DeleteEndsEarly(m: Owners, zones: seq<Zone>, z: nat, used: nat, n: nat, fid: nat,
                                           totals: seq<Totals>)
    returns (all: seq<Totals>)
    requires z < used <= |zones|
    requires FoundIn(zones[z], OfFile(fid)) > 0 && LeftAfter(zones, z + 1, n, OfFile(fid)) == 0
    requires ReadsZones(m, zones, DeleteCounts(zones, z + 1, n, fid), fid, totals)
    ensures ReadsZones(m, zones, DeleteCounts(zones, used, n, fid), fid, all)
    ensures |totals| == z + 2 && all[0] == totals[0] && all[used] == totals[z + 1]
  {
    var counts := DeleteCounts(zones, used, n, fid);
    assert counts[..z + 1] == DeleteCounts(zones, z + 1, n, fid);
    SweepStops(zones, z, used, n, fid);
    all := ReadsNoMore(m, zones, counts, z + 1, fid, totals);
  }

  // ----- the disk owns exactly what the zones hold ------------------------------------------------

  /** The owned tracks in a zone's band. */
  function OwnedInZone(z: Zone, m: Owners): set<nat> {
    set t | t in m && z.logicalLba <= t < z.logicalLba + BAND_TRACKS
  }

  function OwnedIn(zones: seq<Zone>, k: nat, m: Owners): set<nat>
    requires k <= |zones|
  {
    if k == 0 then {} else OwnedIn(zones, k - 1, m) + OwnedInZone(zones[k - 1], m)
  }

  lemma {:induction false} OwnedInHas(zones: seq<Zone>, k: nat, m: Owners, z: nat, t: nat)
    requires z < k <= |zones| && t in OwnedInZone(zones[z], m)
    ensures t in OwnedIn(zones, k, m)
  {
    if z < k - 1 { OwnedInHas(zones, k - 1, m, z, t); }
  }

  lemma {:induction false} OwnedInZoneOf(zones: seq<Zone>, k: nat, m: Owners, t: nat) returns (z: nat)
    requires k <= |zones| && t in OwnedIn(zones, k, m)
    ensures z < k && t in OwnedInZone(zones[z], m)
  {
    if t in OwnedInZone(zones[k - 1], m) { z := k - 1; } else { z := OwnedInZoneOf(zones, k - 1, m, t); }
  }

  lemma {:induction false} OwnedInZoneCount(z: Zone, m: Owners)
    requires Owns(m, z) && z.writeHead <= BAND_TRACKS
    ensures |OwnedInZone(z, m)| == z.writeHead
  {
    WholeRangeIsClaimed(map[], z.logicalLba, z.writeHead, 0);
    assert OwnedInZone(z, m) == Claimable(map[], z.logicalLba, z.writeHead, 0);
  }

  lemma {:induction false} ZonesAreDisjoint(zones: seq<Zone>, used: nat, k: nat, m: Owners)
    requires SpaceValid(zones, used) && k < used
    ensures OwnedIn(zones, k, m) !! OwnedInZone(zones[k], m)
  {
    forall t | t in OwnedIn(zones, k, m) ensures t !in OwnedInZone(zones[k], m) {
      var y := OwnedInZoneOf(zones, k, m, t);
      BandsAreDistinct(zones, used, y, k);
    }
  }

  lemma {:induction false} OwnedInCount(zones: seq<Zone>, used: nat, k: nat, bands: seq<Band>, m: Owners)
    requires SpaceValid(zones, used) && OnBands(zones, used, bands, m) && k <= used <= |zones|
    ensures |OwnedIn(zones, k, m)| == WrittenSlots(zones, k)
  {
    hide SpaceValid, OnBands, OwnedInZone;
    if k > 0 {
      OwnedInCount(zones, used, k - 1, bands, m);
      ZoneOwns(zones, used, k - 1, bands, m);
      OwnedInZoneCount(zones[k - 1], m);
      ZonesAreDisjoint(zones, used, k - 1, m);
    }
  }

  /** No owned track lies outside the zones in use. */
  lemma {:induction false} OwnedIsInZones(zones: seq<Zone>, used: nat, bands: seq<Band>, m: Owners, t: nat)
    requires SpaceValid(zones, used) && OnBands(zones, used, bands, m) && Dominated(bands, m.Keys)
    requires t in m
    ensures t in OwnedIn(zones, used, m)
  {
    var b := BandOf(t);
    if CmrBefore(zones, used) <= b < |zones| - (used - CmrBefore(zones, used)) {
      assert Spare(bands[b], b, m) && InBand(t, b);
    } else {
      EveryOuterBandHoldsAZone(zones, used, b);
      var z: nat :| z < used && ZoneBand(zones, z) == b;
      OwnedInHas(zones, used, m, z, t);
    }
  }

  /** Every track of the disk is owned, sealed for a conventional zone, or free. */
  lemma {:induction false} TracksAddUp(zones: seq<Zone>, used: nat, bands: seq<Band>, m: Owners)
    requires SpaceValid(zones, used) && OnBands(zones, used, bands, m) && Dominated(bands, m.Keys)
    ensures FreeSlots(zones, used) + BAND_TRACKS * (|zones| - used) + |m.Keys| + (BAND_TRACKS - CMR_TRACKS) * CmrBefore(zones, used)
            == BAND_TRACKS * |zones|
  {
    FreeAndWritten(zones, used);
    OwnedInCount(zones, used, used, bands, m);
    forall t | t in m ensures t in OwnedIn(zones, used, m) { OwnedIsInZones(zones, used, bands, m, t); }
    forall t | t in OwnedIn(zones, used, m) ensures t in m { var z := OwnedInZoneOf(zones, used, m, t); }
    assert m.Keys == OwnedIn(zones, used, m);
  }
}
