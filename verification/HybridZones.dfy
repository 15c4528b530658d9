/** The journal zones of the hybrid disk and the commands they issue, as values (include/Hybrid.h). */
module HybridZones {
  import opened Geometry
  import opened ZoneSlots

  datatype Zone = Zone(isOffline: bool, isFull: bool, isJournaling: bool, zoneType: nat, logicalLba: nat,
                       writeHead: nat, blocks: seq<Slot>)

  /**
    Why a command is issued: for a line of the trace, to append to the journal, or to put a record in its own place. An
    append carries the records of its file from address `first` on, for the zone type the predictor chose.
   */
  datatype Purpose = Request | Journal(first: nat, zoneType: nat) | Home

  /** The calls through the disk's operation table, in order. */
  datatype Command =
    | Read(lba: nat, n: nat, fid: nat, purpose: Purpose)
    | Write(lba: nat, n: nat, fid: nat, purpose: Purpose)
    | Remove(lba: nat, n: nat, fid: nat)

  /** What the lines of a trace come to: a record for the journal, of the type chosen for it, or a command passed on. */
  datatype Effect = Placed(record: Record, zoneType: nat) | Passed(command: Command)

  ghost predicate ZoneValid(z: Zone, index: nat) {
    && |z.blocks| == BAND_TRACKS && z.logicalLba == index * BAND_TRACKS
    && (z.isOffline ==> z.writeHead == 0 && !z.isFull && !z.isJournaling)
    && (!z.isOffline ==>
          && z.isJournaling && z.zoneType <= 1
          && z.writeHead <= Capacity(z.zoneType)
          && (z.isFull ==> z.writeHead == Capacity(z.zoneType))
          && (z.writeHead == BAND_TRACKS ==> z.isFull)
          && (forall i :: 0 <= i < BAND_TRACKS ==> (z.blocks[i].isSealed <==> i >= Capacity(z.zoneType))))
  }

  /** The online zones are exactly the first `count`. */
  ghost predicate ZonesValid(zones: seq<Zone>, count: nat) {
    && count <= |zones|
    && forall z :: 0 <= z < |zones| ==> ZoneValid(zones[z], z) && (zones[z].isOffline <==> z >= count)
  }

  predicate Matches(z: Zone, mode: nat) {
    !z.isOffline && z.isJournaling && !z.isFull && z.zoneType == mode
  }

  /** A matching zone among the first `limit` can take a record. */
  ghost predicate HasRoom(zones: seq<Zone>, limit: nat, mode: nat)
    requires limit <= |zones|
  {
    exists z :: 0 <= z < limit && Matches(zones[z], mode) && zones[z].writeHead < Capacity(mode)
  }

  // ----- what the log says was journaled --------------------------------------------------

  predicate IsJournalWrite(c: Command) { c.Write? && c.purpose.Journal? }

  predicate IsHomeWrite(c: Command) { c.Write? && c.purpose.Home? }

  /** A command that a line of the trace causes directly. */
  predicate IsPassed(c: Command) { c.Remove? || (c.Read? && c.purpose.Request?) }

  /** Read-backs and home writes. */
  predicate IsCheckpointing(c: Command) { !IsJournalWrite(c) && !IsPassed(c) }

  function Placements(fid: nat, lba: nat, n: nat, t: nat): seq<Effect> {
    seq(n, i requires 0 <= i < n => Placed(Record(fid, lba + i), t))
  }

  function EffectsTo(log: seq<Command>, k: nat): seq<Effect>
    requires k <= |log|
  {
    if k == 0 then []
    else
      var c := log[k - 1];
      if IsJournalWrite(c) then EffectsTo(log, k - 1) + Placements(c.fid, c.purpose.first, c.n, c.purpose.zoneType)
      else if IsPassed(c) then EffectsTo(log, k - 1) + [Passed(c)]
      else EffectsTo(log, k - 1)
  }

  /** Everything the journal writes of a log carry and everything passed on, in order. */
  function Effects(log: seq<Command>): seq<Effect> { EffectsTo(log, |log|) }

  lemma {:induction false} EffectsToPrefix(log: seq<Command>, more: seq<Command>, k: nat)
    requires k <= |log|
    ensures EffectsTo(log + more, k) == EffectsTo(log, k)
  {
    if k > 0 { EffectsToPrefix(log, more, k - 1); }
  }

  lemma {:induction false} EffectsToConcat(log: seq<Command>, more: seq<Command>, k: nat)
    requires k <= |more|
    ensures EffectsTo(log + more, |log| + k) == Effects(log) + EffectsTo(more, k)
  {
    if k == 0 { EffectsToPrefix(log, more, |log|); } else { EffectsToConcat(log, more, k - 1); }
  }

  lemma {:induction false} EffectsToGrows(log: seq<Command>, j: nat, k: nat)
    requires j <= k <= |log|
    ensures EffectsTo(log, j) <= EffectsTo(log, k)
  {
    if j < k { EffectsToGrows(log, j, k - 1); }
  }

  /** Command `k` is a journal write, and carries an `i`-th record. */
  ghost predicate Carries(log: seq<Command>, k: nat, i: nat) {
    k < |log| && IsJournalWrite(log[k]) && i < log[k].n
  }

  function Carried(log: seq<Command>, k: nat, i: nat): Record
    requires k < |log| && IsJournalWrite(log[k])
  {
    Record(log[k].fid, log[k].purpose.first + i)
  }

  // ----- how every command is issued ----------------------------------------------------

  /** A home write puts back the one record that the command before it has read. */
  ghost predicate ReadsBack(log: seq<Command>, k: nat)
    requires k < |log|
  {
    IsHomeWrite(log[k]) ==> log[k].n == 1 && k > 0 && log[k - 1] == Read(log[k].lba, 1, log[k].fid, Home)
  }

  /** A journal write stays in one of the first `limit` zones, and leaves the last 86 tracks of a conventional one alone. */
  predicate InArea(c: Command, limit: nat) {
    IsJournalWrite(c) ==>
      && c.lba / BAND_TRACKS < limit && c.purpose.zoneType <= 1
      && c.lba % BAND_TRACKS + c.n <= (if c.purpose.zoneType == 0 then 256 - 86 else 256)
  }

  ghost predicate Disciplined(log: seq<Command>, limit: nat) {
    forall k :: 0 <= k < |log| ==> ReadsBack(log, k) && InArea(log[k], limit)
  }

  lemma {:induction false} DisciplinedMore(log: seq<Command>, more: seq<Command>, limit: nat)
    requires Disciplined(log, limit) && Disciplined(more, limit)
    ensures Disciplined(log + more, limit)
  {
    forall k | 0 <= k < |log + more| ensures ReadsBack(log + more, k) && InArea((log + more)[k], limit) {
      if k < |log| {
        assert ReadsBack(log, k) && InArea(log[k], limit);
      } else {
        assert ReadsBack(more, k - |log|) && InArea(more[k - |log|], limit);
      }
    }
  }

  // ----- no record is lost --------------------------------------------------------------

  /** Slot `j` of zone `z`, which is of type `t`, holds the record. */
  ghost predicate HoldsAt(zones: seq<Zone>, z: nat, j: nat, r: Record, t: nat) {
    && z < |zones| && !zones[z].isOffline && zones[z].zoneType == t && j < zones[z].writeHead && j < |zones[z].blocks|
    && zones[z].blocks[j].record == r
  }

  ghost predicate InJournal(zones: seq<Zone>, r: Record, t: nat) {
    exists z: nat, j: nat :: HoldsAt(zones, z, j, r, t)
  }

  ghost predicate HomeAt(log: seq<Command>, k: nat, r: Record) {
    k < |log| && log[k] == Write(r.lba, 1, r.fid, Home)
  }

  /** A home write of the record has been issued at or after position `start` of the log. */
  ghost predicate HomeSince(log: seq<Command>, start: nat, r: Record) {
    exists k: nat :: start <= k && HomeAt(log, k, r)
  }

  /** The record is in the journal, in a zone of the type chosen for it, or went home after it was appended. */
  ghost predicate Safe(zones: seq<Zone>, log: seq<Command>, k: nat, i: nat)
    requires Carries(log, k, i)
  {
    InJournal(zones, Carried(log, k, i), log[k].purpose.zoneType) || HomeSince(log, k + 1, Carried(log, k, i))
  }

  /** That holds of every record ever journaled. */
  ghost predicate NothingLost(zones: seq<Zone>, log: seq<Command>) {
    forall k: nat, i: nat :: Carries(log, k, i) ==> Safe(zones, log, k, i)
  }

  /** Every record ever journaled went home after it was appended. */
  ghost predicate AllHome(log: seq<Command>) {
    forall k: nat, i: nat :: Carries(log, k, i) ==> HomeSince(log, k + 1, Carried(log, k, i))
  }

  lemma {:induction false} HomeStays(log: seq<Command>, more: seq<Command>, start: nat, r: Record)
    requires HomeSince(log, start, r)
    ensures HomeSince(log + more, start, r)
  {
    var k: nat :| start <= k && HomeAt(log, k, r);
    assert HomeAt(log + more, k, r);
  }

  /** A journaled record stays safe while the log grows and no journal record is overwritten. */
  lemma {:induction false} StaysSafe(zones: seq<Zone>, log: seq<Command>, zones': seq<Zone>, more: seq<Command>, k: nat, i: nat)
    requires Carries(log, k, i) && Safe(zones, log, k, i)
    requires forall z: nat, j: nat, r, t: nat :: HoldsAt(zones, z, j, r, t) ==> HoldsAt(zones', z, j, r, t)
    ensures Carries(log + more, k, i) && Safe(zones', log + more, k, i)
  {
    var r, t := Carried(log, k, i), log[k].purpose.zoneType;
    assert (log + more)[k] == log[k];
    if InJournal(zones, r, t) {
      var z: nat, j: nat :| HoldsAt(zones, z, j, r, t);
      assert HoldsAt(zones', z, j, r, t);
    } else {
      HomeStays(log, more, k + 1, r);
    }
  }

  /** Commands other than journal writes lose nothing. */
  lemma {:induction false} OthersLoseNothing(zones: seq<Zone>, log: seq<Command>, zones': seq<Zone>, more: seq<Command>)
    requires NothingLost(zones, log) && forall i :: 0 <= i < |more| ==> !IsJournalWrite(more[i])
    requires forall z: nat, j: nat, r, t: nat :: HoldsAt(zones, z, j, r, t) ==> HoldsAt(zones', z, j, r, t)
    ensures NothingLost(zones', log + more)
  {
    forall k: nat, i: nat | Carries(log + more, k, i) ensures Safe(zones', log + more, k, i) {
      assert k < |log|;
      assert Carries(log, k, i);
      StaysSafe(zones, log, zones', more, k, i);
    }
  }

  // ----- appending to a zone --------------------------------------------------------------

  /** The zone after `k` records of a request were appended. */
  function Appended(z: Zone, fid: nat, lba: nat, k: nat): (r: Zone)
    requires z.writeHead + k <= |z.blocks|
  {
    z.(writeHead := z.writeHead + k,
       blocks := seq(|z.blocks|, i requires 0 <= i < |z.blocks| =>
                   if z.writeHead <= i < z.writeHead + k
                   then z.blocks[i].(record := Record(fid, lba + i - z.writeHead)) else z.blocks[i]))
  }

  /** The journal write an append issues. */
  function AppendCommand(z: Zone, fid: nat, lba: nat, k: nat): Command {
    Write(z.logicalLba + z.writeHead, k, fid, Journal(lba, z.zoneType))
  }

  ghost predicate AppendsTo(zones: seq<Zone>, zones': seq<Zone>, z: nat, fid: nat, lba: nat, k: nat) {
    && z < |zones| == |zones'| && Matches(zones[z], zones[z].zoneType) && |zones[z].blocks| == BAND_TRACKS
    && zones[z].writeHead + k <= Capacity(zones[z].zoneType)
    && zones' == zones[z := zones'[z]]
    && zones'[z] == Appended(zones[z], fid, lba, k).(isFull := zones'[z].isFull)
    && (zones'[z].isFull ==> zones'[z].writeHead == Capacity(zones[z].zoneType))
    && (zones'[z].writeHead == BAND_TRACKS ==> zones'[z].isFull)
  }

  /** An append keeps the zones valid, keeps every record that was there, and adds the new ones. */
  lemma {:induction false} AppendKeepsRecords(zones: seq<Zone>, zones': seq<Zone>, count: nat, z: nat, fid: nat,
                                              lba: nat, k: nat)
    requires ZonesValid(zones, count) && AppendsTo(zones, zones', z, fid, lba, k)
    ensures ZonesValid(zones', count)
    ensures forall y: nat, j: nat, r, t: nat :: HoldsAt(zones, y, j, r, t) ==> HoldsAt(zones', y, j, r, t)
    ensures forall j: nat, r ::
              zones[z].writeHead <= j < zones[z].writeHead + k && r == Record(fid, lba + j - zones[z].writeHead)
              ==> HoldsAt(zones', z, j, r, zones[z].zoneType)
  {
  }

  /** So nothing is lost by an append, the records it journals included. */
  lemma {:induction false} AppendLosesNothing(zones: seq<Zone>, zones': seq<Zone>, count: nat, z: nat, fid: nat,
                                              lba: nat, n: nat,
                                              log: seq<Command>)
    requires ZonesValid(zones, count) && AppendsTo(zones, zones', z, fid, lba, n)
    requires NothingLost(zones, log)
    ensures NothingLost(zones', log + [AppendCommand(zones[z], fid, lba, n)])
    ensures Effects(log + [AppendCommand(zones[z], fid, lba, n)]) == Effects(log) + Placements(fid, lba, n, zones[z].zoneType)
  {
    var c := AppendCommand(zones[z], fid, lba, n);
    AppendKeepsRecords(zones, zones', count, z, fid, lba, n);
    EffectsToPrefix(log, [c], |log|);
    forall k: nat, i: nat | Carries(log + [c], k, i) ensures Safe(zones', log + [c], k, i) {
      if k < |log| {
        assert Carries(log, k, i);
        StaysSafe(zones, log, zones', [c], k, i);
      } else {
        assert HoldsAt(zones', z, zones[z].writeHead + i, Carried(log + [c], k, i), zones[z].zoneType);
      }
    }
  }

  lemma {:induction false} PassedIsDisciplined(c: Command, limit: nat)
    requires IsPassed(c)
    ensures Disciplined([c], limit)
  {
  }

  /** An append is issued within the area of the journal. */
  lemma {:induction false} AppendIsDisciplined(zones: seq<Zone>, zones': seq<Zone>, count: nat, limit: nat, z: nat, fid: nat,
                                               lba: nat, n: nat)
    requires ZonesValid(zones, count) && count <= limit && AppendsTo(zones, zones', z, fid, lba, n)
    ensures Disciplined([AppendCommand(zones[z], fid, lba, n)], limit)
  {
    var c := AppendCommand(zones[z], fid, lba, n);
    assert z * BAND_TRACKS <= c.lba < (z + 1) * BAND_TRACKS;
    assert c.lba / BAND_TRACKS == z && c.lba % BAND_TRACKS == zones[z].writeHead;
  }

  // ----- extents since the last checkpoint ---------------------------------------------------

  predicate IsExtentOf(c: Command, z: nat) {
    IsJournalWrite(c) && z * BAND_TRACKS <= c.lba < (z + 1) * BAND_TRACKS
  }

  /** The position behind the last home write before `k`: every checkpoint ends in one and resets all zones. */
  function LastHome(log: seq<Command>, k: nat): (e: nat)
    requires k <= |log|
    ensures e <= k
  {
    if k == 0 then 0 else if IsHomeWrite(log[k - 1]) then k else LastHome(log, k - 1)
  }

  lemma {:induction false} LastHomePrefix(log: seq<Command>, more: seq<Command>, k: nat)
    requires k <= |log|
    ensures LastHome(log + more, k) == LastHome(log, k)
  {
    if k > 0 {
      assert (log + more)[k - 1] == log[k - 1];
      LastHomePrefix(log, more, k - 1);
    }
  }

  /** The extents issued to zone `z` in `log[start..end]` follow each other from its first track up to `head`. */
  ghost predicate Tiles(log: seq<Command>, start: nat, end: nat, z: nat, head: nat)
    requires end <= |log|
    decreases end
  {
    if end <= start then head == 0
    else
      var c := log[end - 1];
      if IsExtentOf(c, z) then
        c.n <= head && c.lba == z * BAND_TRACKS + head - c.n && Tiles(log, start, end - 1, z, head - c.n)
      else Tiles(log, start, end - 1, z, head)
  }

  lemma {:induction false} TilesPrefix(log: seq<Command>, more: seq<Command>, start: nat, end: nat, z: nat, head: nat)
    requires end <= |log| && Tiles(log, start, end, z, head)
    ensures Tiles(log + more, start, end, z, head)
    decreases end
  {
    if end > start {
      var c := log[end - 1];
      assert (log + more)[end - 1] == c;
      TilesPrefix(log, more, start, end - 1, z, if IsExtentOf(c, z) then head - c.n else head);
    }
  }

  /** Since the last checkpoint every zone has been tiled up to its head. */
  ghost predicate AllTiled(zones: seq<Zone>, log: seq<Command>) {
    forall z :: 0 <= z < |zones| ==> Tiles(log, LastHome(log, |log|), |log|, z, zones[z].writeHead)
  }

  /** A journal write lands right behind what its zone got since the last checkpoint, and within what the type can hold. */
  ghost predicate ExtentFits(log: seq<Command>, k: nat)
    requires k < |log| && IsJournalWrite(log[k])
  {
    var z, head := log[k].lba / BAND_TRACKS, log[k].lba % BAND_TRACKS;
    && head + log[k].n <= Capacity(log[k].purpose.zoneType)
    && Tiles(log, LastHome(log, k), k, z, head)
  }

  /** Every journal write there ever was did. */
  ghost predicate AllFit(log: seq<Command>) {
    forall k :: 0 <= k < |log| && IsJournalWrite(log[k]) ==> ExtentFits(log, k)
  }

  lemma {:induction false} ExtentStillFits(log: seq<Command>, more: seq<Command>, k: nat)
    requires k < |log| && IsJournalWrite(log[k]) && ExtentFits(log, k)
    ensures (log + more)[k] == log[k] && ExtentFits(log + more, k)
  {
    LastHomePrefix(log, more, k);
    TilesPrefix(log, more, LastHome(log, k), k, log[k].lba / BAND_TRACKS, log[k].lba % BAND_TRACKS);
  }

  lemma {:induction false} EffectsToStay(log: seq<Command>, more: seq<Command>, j: nat)
    requires j <= |more| && forall i :: 0 <= i < j ==> IsCheckpointing(more[i])
    ensures EffectsTo(log + more, |log| + j) == Effects(log)
  {
    if j > 0 { EffectsToStay(log, more, j - 1); } else { EffectsToPrefix(log, more, |log|); }
  }

  /** The commands of a checkpoint have no effect of their own. */
  lemma {:induction false} CheckpointHasNoEffect(log: seq<Command>, more: seq<Command>)
    requires forall i :: 0 <= i < |more| ==> IsCheckpointing(more[i])
    ensures Effects(log + more) == Effects(log)
  {
    EffectsToStay(log, more, |more|);
  }

  lemma {:induction false} PassedIsEffect(log: seq<Command>, c: Command)
    requires IsPassed(c)
    ensures Effects(log + [c]) == Effects(log) + [Passed(c)]
  {
    EffectsToPrefix(log, [c], |log|);
  }

  /** Commands other than journal writes leave the extents as they are. */
  lemma {:induction false} OthersStillFit(log: seq<Command>, more: seq<Command>)
    requires AllFit(log) && forall i :: 0 <= i < |more| ==> !IsJournalWrite(more[i])
    ensures AllFit(log + more)
  {
    forall k | 0 <= k < |log + more| && IsJournalWrite((log + more)[k]) ensures ExtentFits(log + more, k) {
      ExtentStillFits(log, more, k);
    }
  }

  lemma {:induction false} OtherCommandKeepsTiling(zones: seq<Zone>, log: seq<Command>, c: Command)
    requires AllTiled(zones, log) && !c.Write?
    ensures AllTiled(zones, log + [c])
  {
    LastHomePrefix(log, [c], |log|);
    forall z | 0 <= z < |zones| ensures Tiles(log + [c], LastHome(log, |log|), |log| + 1, z, zones[z].writeHead) {
      TilesPrefix(log, [c], LastHome(log, |log|), |log|, z, zones[z].writeHead);
    }
  }

  lemma {:induction false} AppendKeepsTiling(zones: seq<Zone>, zones': seq<Zone>, count: nat, z: nat, fid: nat, lba: nat,
                                             n: nat,
                                             log: seq<Command>)
    requires ZonesValid(zones, count) && AppendsTo(zones, zones', z, fid, lba, n)
    requires AllTiled(zones, log) && AllFit(log)
    ensures AllTiled(zones', log + [AppendCommand(zones[z], fid, lba, n)])
    ensures AllFit(log + [AppendCommand(zones[z], fid, lba, n)])
  {
    var c, start := AppendCommand(zones[z], fid, lba, n), LastHome(log, |log|);
    LastHomePrefix(log, [c], |log|);
    assert z * BAND_TRACKS <= c.lba < (z + 1) * BAND_TRACKS;
    forall y | 0 <= y < |zones| ensures Tiles(log + [c], start, |log| + 1, y, zones'[y].writeHead) {
      TilesPrefix(log, [c], start, |log|, y, zones[y].writeHead);
      assert IsExtentOf(c, y) <==> y == z;
    }
    forall k | 0 <= k < |log + [c]| && IsJournalWrite((log + [c])[k]) ensures ExtentFits(log + [c], k) {
      if k < |log| {
        ExtentStillFits(log, [c], k);
      } else {
        TilesPrefix(log, [c], start, |log|, z, zones[z].writeHead);
        assert c.lba / BAND_TRACKS == z && c.lba % BAND_TRACKS == zones[z].writeHead;
      }
    }
  }

  lemma {:induction false} EmptyTiling(zones: seq<Zone>, log: seq<Command>)
    requires LastHome(log, |log|) == |log|
    requires forall z :: 0 <= z < |zones| ==> zones[z].writeHead == 0
    ensures AllTiled(zones, log)
  {
  }

  ghost predicate Covers(log: seq<Command>, k: nat, z: nat, track: nat)
    requires k < |log|
  {
    IsExtentOf(log[k], z) && log[k].lba <= track < log[k].lba + log[k].n
  }

  /**
    What tiling means: an extent of the zone covers only tracks below the head, every track below the head is
    covered, and no track twice.
   */
  lemma {:induction false} TilesCover(log: seq<Command>, start: nat, end: nat, z: nat, head: nat, track: nat)
    requires end <= |log| && Tiles(log, start, end, z, head)
    ensures forall k :: start <= k < end && Covers(log, k, z, track) ==> track < z * BAND_TRACKS + head
    ensures z * BAND_TRACKS <= track < z * BAND_TRACKS + head ==> exists k :: start <= k < end && Covers(log, k, z, track)
    ensures forall j, k :: start <= j < k < end ==> !(Covers(log, j, z, track) && Covers(log, k, z, track))
    decreases end
  {
    if end > start {
      var c := log[end - 1];
      var head' := if IsExtentOf(c, z) then head - c.n else head;
      TilesCover(log, start, end - 1, z, head', track);
      if z * BAND_TRACKS <= track < z * BAND_TRACKS + head {
        if track < z * BAND_TRACKS + head' {
          var k :| start <= k < end - 1 && Covers(log, k, z, track);
        } else {
          assert Covers(log, end - 1, z, track);
        }
      }
    }
  }

  // ----- checkpoint ---------------------------------------------------------------------

  /** What a checkpoint issues for the first `k` slots of a zone, filled or not. */
  function SlotLog(blocks: seq<Slot>, k: nat): (r: seq<Command>)
    requires k <= |blocks|
    ensures |r| == 2 * k
  {
    if k == 0 then []
    else
      var r := blocks[k - 1].record;
      SlotLog(blocks, k - 1) + [Read(r.lba, 1, r.fid, Home), Write(r.lba, 1, r.fid, Home)]
  }

  function ZoneLog(blocks: seq<Slot>): seq<Command> { SlotLog(blocks, |blocks|) }

  /** What a checkpoint of the first `k` zones issues. */
  function CheckpointLog(zones: seq<Zone>, k: nat): seq<Command>
    requires k <= |zones|
  {
    if k == 0 then [] else CheckpointLog(zones, k - 1) + ZoneLog(zones[k - 1].blocks)
  }

  lemma {:induction false} SlotLogHas(blocks: seq<Slot>, k: nat, j: nat)
    requires j < k <= |blocks|
    ensures HomeAt(SlotLog(blocks, k), 2 * j + 1, blocks[j].record)
  {
    if j < k - 1 { SlotLogHas(blocks, k - 1, j); }
  }

  /** A checkpoint sends home every slot of every zone it visits. */
  lemma {:induction false} CheckpointSendsHome(zones: seq<Zone>, k: nat, log: seq<Command>, z: nat, j: nat)
    requires z < k <= |zones|
    requires j < |zones[z].blocks|
    ensures HomeSince(log + CheckpointLog(zones, k), |log|, zones[z].blocks[j].record)
  {
    var r := zones[z].blocks[j].record;
    if z < k - 1 {
      CheckpointSendsHome(zones, k - 1, log, z, j);
      HomeStays(log + CheckpointLog(zones, k - 1), ZoneLog(zones[k - 1].blocks), |log|, r);
      assert (log + CheckpointLog(zones, k - 1)) + ZoneLog(zones[k - 1].blocks) == log + CheckpointLog(zones, k);
    } else {
      SlotLogHas(zones[z].blocks, |zones[z].blocks|, j);
      assert HomeAt(log + CheckpointLog(zones, k), |log| + |CheckpointLog(zones, k - 1)| + 2 * j + 1, r);
    }
  }

  lemma {:induction false} SlotLogIsCheckpointing(blocks: seq<Slot>, k: nat)
    requires k <= |blocks|
    ensures forall i :: 0 <= i < 2 * k ==> IsCheckpointing(SlotLog(blocks, k)[i])
    ensures k > 0 ==> IsHomeWrite(SlotLog(blocks, k)[2 * k - 1])
  {
    if k > 0 { SlotLogIsCheckpointing(blocks, k - 1); }
  }

  /** A checkpoint issues read-backs and home writes only, and ends with a home write. */
  lemma {:induction false} CheckpointLogIsCheckpointing(zones: seq<Zone>, k: nat)
    requires k <= |zones| && forall z :: 0 <= z < k ==> |zones[z].blocks| > 0
    ensures forall i :: 0 <= i < |CheckpointLog(zones, k)| ==> IsCheckpointing(CheckpointLog(zones, k)[i])
    ensures k > 0 ==> var log := CheckpointLog(zones, k); |log| > 0 && IsHomeWrite(log[|log| - 1])
  {
    if k > 0 {
      CheckpointLogIsCheckpointing(zones, k - 1);
      SlotLogIsCheckpointing(zones[k - 1].blocks, |zones[k - 1].blocks|);
    }
  }

  lemma {:induction false} SlotLogIsDisciplined(blocks: seq<Slot>, k: nat, limit: nat)
    requires k <= |blocks|
    ensures Disciplined(SlotLog(blocks, k), limit)
  {
    if k > 0 {
      var r := blocks[k - 1].record;
      SlotLogIsDisciplined(blocks, k - 1, limit);
      DisciplinedMore(SlotLog(blocks, k - 1), [Read(r.lba, 1, r.fid, Home), Write(r.lba, 1, r.fid, Home)], limit);
    }
  }

  /** A checkpoint reads every record back right before it writes it home. */
  lemma {:induction false} CheckpointIsDisciplined(zones: seq<Zone>, k: nat, limit: nat)
    requires k <= |zones|
    ensures Disciplined(CheckpointLog(zones, k), limit)
  {
    if k > 0 {
      CheckpointIsDisciplined(zones, k - 1, limit);
      SlotLogIsDisciplined(zones[k - 1].blocks, |zones[k - 1].blocks|, limit);
      DisciplinedMore(CheckpointLog(zones, k - 1), ZoneLog(zones[k - 1].blocks), limit);
    }
  }

  /** After a checkpoint that visits every online zone, every journaled record has gone home. */
  lemma {:induction false} CheckpointLosesNothing(zones: seq<Zone>, count: nat, limit: nat, log: seq<Command>)
    requires ZonesValid(zones, count) && count <= limit <= |zones|
    requires NothingLost(zones, log)
    ensures AllHome(log + CheckpointLog(zones, limit))
  {
    var more := CheckpointLog(zones, limit);
    var log' := log + more;
    CheckpointLogIsCheckpointing(zones, limit);
    forall k: nat, i: nat | Carries(log', k, i) ensures HomeSince(log', k + 1, Carried(log', k, i)) {
      assert k < |log|;
      assert Carries(log, k, i);
      var r, t := Carried(log, k, i), log[k].purpose.zoneType;
      if InJournal(zones, r, t) {
        var z: nat, j: nat :| HoldsAt(zones, z, j, r, t);
        CheckpointSendsHome(zones, limit, log, z, j);
        var h: nat :| |log| <= h && HomeAt(log', h, r);
        assert k + 1 <= h;
      } else {
        HomeStays(log, more, k + 1, r);
      }
    }
  }

  /** What a checkpoint does to a zone; the slots keep what they hold. */
  function Reset(z: Zone): Zone {
    z.(isOffline := true, writeHead := 0, isFull := false, isJournaling := false)
  }

  function ResetFirst(zones: seq<Zone>, k: nat): seq<Zone> {
    seq(|zones|, i requires 0 <= i < |zones| => if i < k then Reset(zones[i]) else zones[i])
  }

  lemma {:induction false} ResetNone(zones: seq<Zone>)
    ensures ResetFirst(zones, 0) == zones && |CheckpointLog(zones, 0)| == 0
  {
  }

  /** One more zone of a checkpoint. */
  lemma {:induction false} ResetMore(zones: seq<Zone>, z: nat, log: seq<Command>)
    requires z < |zones|
    ensures ResetFirst(zones, z)[z] == zones[z]
    ensures ResetFirst(zones, z + 1) == ResetFirst(zones, z)[z := Reset(zones[z])]
    ensures log + CheckpointLog(zones, z + 1) == (log + CheckpointLog(zones, z)) + ZoneLog(zones[z].blocks)
  {
  }

  /** After the checkpoint the journal is empty, and still nothing is lost. */
  lemma {:induction false} CheckpointEmptiesJournal(zones: seq<Zone>, count: nat, limit: nat, log: seq<Command>)
    requires ZonesValid(zones, count) && count <= limit <= |zones|
    requires NothingLost(zones, log) && AllTiled(zones, log) && AllFit(log)
    ensures var log' := log + CheckpointLog(zones, limit);
      && ZonesValid(ResetFirst(zones, limit), 0)
      && AllTiled(ResetFirst(zones, limit), log') && AllFit(log') && Effects(log') == Effects(log)
      && AllHome(log')
      && NothingLost(ResetFirst(zones, limit), log')
  {
    var log' := log + CheckpointLog(zones, limit);
    CheckpointLosesNothing(zones, count, limit, log);
    CheckpointLogIsCheckpointing(zones, limit);
    OthersStillFit(log, CheckpointLog(zones, limit));
    CheckpointHasNoEffect(log, CheckpointLog(zones, limit));
    if limit > 0 {
      assert IsHomeWrite(log'[|log'| - 1]);
      EmptyTiling(ResetFirst(zones, limit), log');
    } else {
      ResetNone(zones);
      assert log' == log;
    }
  }
}
