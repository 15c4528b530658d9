/** The zones of the FluidSMR space as values (include/FluidSMR.h, fluidsmr_parsing_csv in main.c). */
module FluidZones {
  import opened Geometry
  import opened ZoneSlots

  datatype Option<T> = None | Some(value: T)

  datatype Zone = Zone(isUsed: bool, isFull: bool, zoneType: int, logicalLba: nat, writeHead: nat, blocks: seq<Slot>)

  ghost predicate ZoneValid(z: Zone) {
    && z.isUsed && |z.blocks| == BAND_TRACKS && z.writeHead <= Capacity(z.zoneType)
    && (z.isFull ==> z.writeHead == Capacity(z.zoneType))
    && (forall i :: 0 <= i < BAND_TRACKS ==> (z.blocks[i].isSealed <==> i >= Capacity(z.zoneType)))
  }

  ghost predicate Untouched(z: Zone) {
    !z.isUsed && !z.isFull && z.writeHead == 0 && |z.blocks| == BAND_TRACKS
  }

  // ----- where zones lie: conventional ones from the first band up, shingled ones from the last band down ------

  /** The conventional zones among the first `k`. */
  function CmrBefore(zones: seq<Zone>, k: nat): (r: nat)
    requires k <= |zones|
    ensures r <= k
  {
    if k == 0 then 0 else CmrBefore(zones, k - 1) + if zones[k - 1].zoneType == 0 then 1 else 0
  }

  function ZoneBand(zones: seq<Zone>, z: nat): (b: nat)
    requires z < |zones|
    ensures b < |zones|
  {
    if zones[z].zoneType == 0 then CmrBefore(zones, z) else |zones| - 1 - (z - CmrBefore(zones, z))
  }

  ghost predicate Laid(zones: seq<Zone>, used: nat)
    requires used <= |zones|
  {
    forall z :: 0 <= z < used ==> zones[z].logicalLba == ZoneBand(zones, z) * BAND_TRACKS
  }

  lemma {:induction false} CmrBeforeGrows(zones: seq<Zone>, j: nat, k: nat)
    requires j <= k <= |zones|
    ensures CmrBefore(zones, j) <= CmrBefore(zones, k) <= CmrBefore(zones, j) + (k - j)
  {
    if j < k { CmrBeforeGrows(zones, j, k - 1); }
  }

  lemma {:induction false} CmrBeforeAgree(zones: seq<Zone>, zones': seq<Zone>, k: nat)
    requires k <= |zones| && k <= |zones'|
    requires forall z :: 0 <= z < k ==> zones'[z].zoneType == zones[z].zoneType
    ensures CmrBefore(zones', k) == CmrBefore(zones, k)
  {
    if k > 0 { CmrBeforeAgree(zones, zones', k - 1); }
  }

  /** The two ends never cross: no two zones share a band, and each lies at the end of its kind. */
  lemma {:induction false} BandsAreDistinct(zones: seq<Zone>, used: nat, y: nat, z: nat)
    requires y < z < used <= |zones|
    ensures ZoneBand(zones, y) != ZoneBand(zones, z)
  {
    CmrBeforeGrows(zones, y + 1, z);
    CmrBeforeGrows(zones, y, used);
    CmrBeforeGrows(zones, z + 1, used);
  }

  lemma {:induction false} BandsStayOnTheirSide(zones: seq<Zone>, used: nat, z: nat)
    requires z < used <= |zones|
    ensures zones[z].zoneType == 0 ==> ZoneBand(zones, z) < CmrBefore(zones, used)
    ensures zones[z].zoneType != 0 ==> |zones| - (used - CmrBefore(zones, used)) <= ZoneBand(zones, z)
  {
    CmrBeforeGrows(zones, z + 1, used);
  }

  /** And no band is skipped: every band below the one boundary or above the other holds a zone. */
  lemma {:induction false} EveryOuterBandHoldsAZone(zones: seq<Zone>, used: nat, b: nat)
    requires used <= |zones|
    requires b < CmrBefore(zones, used) || |zones| - (used - CmrBefore(zones, used)) <= b < |zones|
    ensures exists z: nat :: z < used && ZoneBand(zones, z) == b && (zones[z].zoneType == 0 <==> b < CmrBefore(zones, used))
  {
    var c := CmrBefore(zones, used - 1);
    if zones[used - 1].zoneType == 0 && b == c {
      assert ZoneBand(zones, used - 1) == b;
    } else if zones[used - 1].zoneType != 0 && b == |zones| - (used - c) {
      assert ZoneBand(zones, used - 1) == b;
    } else {
      EveryOuterBandHoldsAZone(zones, used - 1, b);
    }
  }

  // ----- what zones hold --------------------------------------------------------------

  function FreeIn(z: Zone): nat {
    if z.writeHead <= Capacity(z.zoneType) then Capacity(z.zoneType) - z.writeHead else 0
  }

  /** The free slots of the first `k` zones. */
  function FreeSlots(zones: seq<Zone>, k: nat): nat
    requires k <= |zones|
  {
    if k == 0 then 0 else FreeSlots(zones, k - 1) + FreeIn(zones[k - 1])
  }

  /** The blocks that the free-space counter stands for: free slots, and everything in zones not in use. */
  function FreeBlocks(zones: seq<Zone>, used: nat): nat
    requires used <= |zones|
  {
    FreeSlots(zones, used) + BAND_TRACKS * (|zones| - used)
  }

  /** The written slots of the first `k` zones. */
  function WrittenSlots(zones: seq<Zone>, k: nat): nat
    requires k <= |zones|
  {
    if k == 0 then 0 else WrittenSlots(zones, k - 1) + zones[k - 1].writeHead
  }

  lemma {:induction false} FreeAndWritten(zones: seq<Zone>, k: nat)
    requires k <= |zones| && forall z :: 0 <= z < k ==> ZoneValid(zones[z])
    ensures FreeSlots(zones, k) + WrittenSlots(zones, k)
            == CMR_TRACKS * CmrBefore(zones, k) + BAND_TRACKS * (k - CmrBefore(zones, k))
  {
    if k > 0 { FreeAndWritten(zones, k - 1); }
  }

  function ZoneRecords(z: Zone): seq<Record> {
    if z.writeHead <= |z.blocks| then seq(z.writeHead, j requires 0 <= j < z.writeHead => z.blocks[j].record) else []
  }

  /** The records of all zones of a type among the first `k`, zone by zone and slot by slot. */
  function Log(zones: seq<Zone>, k: nat, t: int): seq<Record>
    requires k <= |zones|
  {
    if k == 0 then []
    else if zones[k - 1].zoneType == t && zones[k - 1].writeHead > 0 then Log(zones, k - 1, t) + ZoneRecords(zones[k - 1])
    else Log(zones, k - 1, t)
  }

  /** Of all zones of one type, only the last one opened can have room. */
  ghost predicate OnlyLastHasRoom(zones: seq<Zone>, used: nat)
    requires used <= |zones|
  {
    forall y, z :: 0 <= y < z < used && zones[y].zoneType == zones[z].zoneType ==> FreeIn(zones[y]) == 0
  }

  ghost predicate SpaceValid(zones: seq<Zone>, used: nat) {
    && used <= |zones|
    && (forall z :: 0 <= z < used ==> ZoneValid(zones[z]))
    && (forall z :: used <= z < |zones| ==> Untouched(zones[z]))
    && Laid(zones, used)
    && OnlyLastHasRoom(zones, used)
  }

  /** No zone of the type has room among the first `k`. */
  ghost predicate NoRoom(zones: seq<Zone>, k: nat, t: int) {
    k <= |zones| && forall z :: 0 <= z < k && zones[z].zoneType == t ==> FreeIn(zones[z]) == 0
  }

  /** `b` is `a` with `more` at its end. */
  ghost predicate Extends(a: seq<Record>, more: seq<Record>, b: seq<Record>) {
    && |b| == |a| + |more|
    && (forall i :: 0 <= i < |a| ==> b[i] == a[i])
    && (forall i :: |a| <= i < |b| ==> b[i] == more[i - |a|])
  }

  /** From one state to another the log of type `t` grew by `records`, and the other logs stayed. */
  ghost predicate Grew(zones: seq<Zone>, used: nat, zones': seq<Zone>, used': nat, t: int, records: seq<Record>)
    requires used <= |zones| && used' <= |zones'|
  {
    && Extends(Log(zones, used, t), records, Log(zones', used', t))
    && forall u: int :: u != t ==> Log(zones', used', u) == Log(zones, used, u)
  }

  lemma {:induction false} GrewTwice(zones0: seq<Zone>, used0: nat, zones1: seq<Zone>, used1: nat, zones2: seq<Zone>,
                                     used2: nat,
                                     t: int, a: seq<Record>, b: seq<Record>)
    requires used0 <= |zones0| && used1 <= |zones1| && used2 <= |zones2|
    requires Grew(zones0, used0, zones1, used1, t, a) && Grew(zones1, used1, zones2, used2, t, b)
    ensures Grew(zones0, used0, zones2, used2, t, a + b)
  {
  }

  // ----- room for a type ------------------------------------------------------------------

  /** The free slots of the zones of a type among the first `k`. */
  function RoomOf(zones: seq<Zone>, k: nat, t: int): nat
    requires k <= |zones|
  {
    if k == 0 then 0
    else RoomOf(zones, k - 1, t) + if zones[k - 1].zoneType == t then FreeIn(zones[k - 1]) else 0
  }

  /** The slots of `k` zones of a type. */
  function Slots(t: int, k: nat): nat {
    if t == 0 then CMR_TRACKS * k else BAND_TRACKS * k
  }

  /** The records of a type that fit when zones up to `used'` are in use, the new ones all of that type. */
  function Room(zones: seq<Zone>, used: nat, used': nat, t: int): nat
    requires used <= |zones| && used <= used'
  {
    RoomOf(zones, used, t) + Slots(t, used' - used)
  }

  /** The records of a type that can still be placed: in zones in use, and in those that can still be opened. */
  function Avail(zones: seq<Zone>, used: nat, t: int): nat
    requires used <= |zones|
  {
    Room(zones, used, |zones|, t)
  }

  lemma {:induction false} RoomOfAgree(zones: seq<Zone>, zones': seq<Zone>, k: nat, t: int)
    requires k <= |zones| && k <= |zones'|
    requires forall z :: 0 <= z < k ==> zones'[z].zoneType == zones[z].zoneType && FreeIn(zones'[z]) == FreeIn(zones[z])
    ensures RoomOf(zones', k, t) == RoomOf(zones, k, t)
  {
    if k > 0 { RoomOfAgree(zones, zones', k - 1, t); }
  }

  lemma {:induction false} RoomOfCovers(zones: seq<Zone>, k: nat, z: nat)
    requires z < k <= |zones|
    ensures FreeIn(zones[z]) <= RoomOf(zones, k, zones[z].zoneType)
  {
    if z < k - 1 { RoomOfCovers(zones, k - 1, z); }
  }

  lemma {:induction false} NoRoomIsNone(zones: seq<Zone>, k: nat, t: int)
    requires NoRoom(zones, k, t)
    ensures RoomOf(zones, k, t) == 0
  {
    if k > 0 { NoRoomIsNone(zones, k - 1, t); }
  }

  // ----- what a write places ------------------------------------------------------------

  /** The records of a request that are placed: all but the one that was updated in place. */
  function ToPlace(fid: nat, lba: nat, n: nat, skip: Option<nat>): seq<Record> {
    if n == 0 then []
    else if skip == Some(lba + n - 1) then ToPlace(fid, lba, n - 1, skip)
    else ToPlace(fid, lba, n - 1, skip) + [Record(fid, lba + n - 1)]
  }

  lemma {:induction false} ToPlaceSplit(fid: nat, lba: nat, j: nat, k: nat, skip: Option<nat>)
    ensures ToPlace(fid, lba, j + k, skip) == ToPlace(fid, lba, j, skip) + ToPlace(fid, lba + j, k, skip)
  {
    if k > 0 {
      ToPlaceSplit(fid, lba, j, k - 1, skip);
      var last := [Record(fid, lba + j + k - 1)];
      assert (ToPlace(fid, lba, j, skip) + ToPlace(fid, lba + j, k - 1, skip)) + last
          == ToPlace(fid, lba, j, skip) + (ToPlace(fid, lba + j, k - 1, skip) + last);
    }
  }

  /** Zones in use keep their type and never shrink; zones that come into use are of type `t`. */
  ghost predicate Advances(zones: seq<Zone>, used: nat, zones': seq<Zone>, used': nat, t: int) {
    && used <= used' <= |zones'| == |zones|
    && (forall z :: 0 <= z < used ==>
          zones'[z].zoneType == zones[z].zoneType && zones[z].writeHead <= zones'[z].writeHead)
    && (forall z :: used <= z < used' ==> zones'[z].zoneType == t)
  }

  /**
    As many zones were opened as the first `done` addresses of a request need: when the last of them was gone through
    there was still room, and without the last zone there would not have been.
   */
  ghost predicate Needed(zones: seq<Zone>, used: nat, used': nat, t: int, fid: nat, lba: nat, done: nat, skip: Option<nat>)
    requires used <= |zones| && used <= used'
  {
    if done == 0 then used' == used
    else
      var before := |ToPlace(fid, lba, done - 1, skip)|;
      before < Room(zones, used, used', t) && (used < used' ==> Room(zones, used, used' - 1, t) <= before)
  }

  /** The first `done` addresses of a request were placed: the log of the type grew by their records, and their room is gone. */
  ghost predicate Placed(zones: seq<Zone>, used: nat, zones': seq<Zone>, used': nat, t: int,
                         fid: nat, lba: nat, done: nat, skip: Option<nat>) {
    && Advances(zones, used, zones', used', t)
    && Grew(zones, used, zones', used', t, ToPlace(fid, lba, done, skip))
    && RoomOf(zones', used', t) + |ToPlace(fid, lba, done, skip)| == Room(zones, used, used', t)
    && Needed(zones, used, used', t, fid, lba, done, skip)
  }

  lemma {:induction false} NothingPlaced(zones: seq<Zone>, used: nat, t: int, fid: nat, lba: nat, skip: Option<nat>)
    requires used <= |zones|
    ensures Placed(zones, used, zones, used, t, fid, lba, 0, skip) && NoRoom(zones, 0, t)
  {
  }

  /** One placement after the other opens what both together need. */
  lemma {:induction false} NeededMore(zones0: seq<Zone>, used0: nat, zones1: seq<Zone>, used1: nat, used2: nat,
                                      t: int, fid: nat, lba: nat, done: nat, taken: nat, skip: Option<nat>)
    requires used0 <= |zones0| && used0 <= used1 <= |zones1| && used1 <= used2
    requires RoomOf(zones1, used1, t) + |ToPlace(fid, lba, done, skip)| == Room(zones0, used0, used1, t)
    requires Needed(zones0, used0, used1, t, fid, lba, done, skip)
    requires Needed(zones1, used1, used2, t, fid, lba + done, taken, skip)
    ensures Needed(zones0, used0, used2, t, fid, lba, done + taken, skip)
  {
    if done > 0 && taken > 0 {
      ToPlaceSplit(fid, lba, done, taken - 1, skip);
      assert |ToPlace(fid, lba, done - 1, skip)| <= |ToPlace(fid, lba, done, skip)|;
    }
  }

  lemma {:induction false} PlacedMore(zones0: seq<Zone>, used0: nat, zones1: seq<Zone>, used1: nat, zones2: seq<Zone>,
                                      used2: nat,
                                      t: int, fid: nat, lba: nat, done: nat, taken: nat, skip: Option<nat>)
    requires Placed(zones0, used0, zones1, used1, t, fid, lba, done, skip)
    requires Placed(zones1, used1, zones2, used2, t, fid, lba + done, taken, skip)
    ensures Placed(zones0, used0, zones2, used2, t, fid, lba, done + taken, skip)
  {
    hide Grew;
    ToPlaceSplit(fid, lba, done, taken, skip);
    GrewTwice(zones0, used0, zones1, used1, zones2, used2, t, ToPlace(fid, lba, done, skip), ToPlace(fid, lba + done, taken, skip));
    NeededMore(zones0, used0, zones1, used1, used2, t, fid, lba, done, taken, skip);
  }

  /** How many addresses of a request can be gone through with `room` left: the skipped one costs none, if it comes in time. */
  function Reach(room: nat, lba: nat, n: nat, skip: Option<nat>): nat {
    var reach := room + if skip.Some? && lba <= skip.value < lba + room then 1 else 0;
    if n <= reach then n else reach
  }

  lemma {:induction false} ReachIsExact(fid: nat, lba: nat, done: nat, n: nat, skip: Option<nat>, room: nat)
    requires done <= n && |ToPlace(fid, lba, done, skip)| <= room
    requires done > 0 ==> |ToPlace(fid, lba, done - 1, skip)| < room
    requires done < n ==> |ToPlace(fid, lba, done, skip)| == room
    ensures done == Reach(room, lba, n, skip)
  {
    ToPlaceIsRange(fid, lba, done, skip);
    if done > 0 { ToPlaceIsRange(fid, lba, done - 1, skip); }
  }

  /** A placement goes through exactly the addresses that there was room for. */
  lemma {:induction false} PlacementIsExact(zones: seq<Zone>, used: nat, zones': seq<Zone>, used': nat, t: int,
                                            fid: nat, lba: nat, done: nat, n: nat, skip: Option<nat>)
    requires Placed(zones, used, zones', used', t, fid, lba, done, skip) && done <= n
    requires done < n ==> used' == |zones'| && NoRoom(zones', used', t)
    ensures done == Reach(Avail(zones, used, t), lba, n, skip)
  {
    hide Grew;
    if done < n { NoRoomIsNone(zones', used', t); }
    ReachIsExact(fid, lba, done, n, skip, Avail(zones, used, t));
  }

  /** And when that is not all of them, every zone is in use and none of the type has room. */
  lemma {:induction false} LossMeansFull(zones: seq<Zone>, used: nat, zones': seq<Zone>, used': nat, t: int,
                                         fid: nat, lba: nat, done: nat, n: nat, skip: Option<nat>)
    requires Placed(zones, used, zones', used', t, fid, lba, done, skip)
    requires done == Reach(Avail(zones, used, t), lba, n, skip) < n
    ensures used' == |zones'| && NoRoom(zones', used', t)
  {
    hide Grew;
    ToPlaceIsRange(fid, lba, done, skip);
    assert RoomOf(zones', used', t) == 0;
    forall z | 0 <= z < used' && zones'[z].zoneType == t ensures FreeIn(zones'[z]) == 0 {
      RoomOfCovers(zones', used', z);
    }
  }

  /** Before the skipped address the i-th record is that of the i-th address, after it that of the one behind. */
  lemma {:induction false} ToPlaceIsRange(fid: nat, lba: nat, n: nat, skip: Option<nat>)
    ensures var r := ToPlace(fid, lba, n, skip);
      && |r| == (if skip.Some? && lba <= skip.value < lba + n then n - 1 else n)
      && forall i :: 0 <= i < |r| ==>
           r[i] == Record(fid, lba + i + if skip.Some? && lba <= skip.value <= lba + i then 1 else 0)
  {
    if n > 0 { ToPlaceIsRange(fid, lba, n - 1, skip); }
  }

  // ----- appending to a zone ------------------------------------------------------------

  function Filled(z: Zone, records: seq<Record>): (r: Zone)
    requires z.writeHead + |records| <= |z.blocks|
  {
    z.(writeHead := z.writeHead + |records|,
       blocks := seq(|z.blocks|, i requires 0 <= i < |z.blocks| =>
                   if z.writeHead <= i < z.writeHead + |records|
                   then z.blocks[i].(record := records[i - z.writeHead]) else z.blocks[i]))
  }

  ghost predicate AppendsTo(zones: seq<Zone>, zones': seq<Zone>, z: nat, records: seq<Record>) {
    && z < |zones| == |zones'| && ZoneValid(zones[z])
    && zones[z].writeHead + |records| <= Capacity(zones[z].zoneType)
    && zones' == zones[z := zones'[z]]
    && zones'[z] == Filled(zones[z], records).(isFull := zones'[z].isFull)
    && (zones'[z].isFull ==> zones'[z].writeHead == Capacity(zones[z].zoneType))
  }

  /** One more record goes into the next slot. */
  lemma {:induction false} FilledMore(z: Zone, records: seq<Record>, r: Record)
    requires z.writeHead + |records| < |z.blocks|
    ensures var f, i := Filled(z, records), z.writeHead + |records|;
      && |f.blocks| == |z.blocks| && f.blocks[i].isSealed == z.blocks[i].isSealed
      && f.zoneType == z.zoneType && f.isFull == z.isFull
      && Filled(z, records + [r]) == f.(writeHead := i + 1, blocks := f.blocks[i := f.blocks[i].(record := r)])
  {
  }

  lemma {:induction false} FilledNone(z: Zone)
    requires z.writeHead <= |z.blocks|
    ensures Filled(z, []) == z
  {
    assert Filled(z, []).blocks == z.blocks;
  }

  lemma {:induction false} FilledRecords(z: Zone, records: seq<Record>)
    requires z.writeHead + |records| <= |z.blocks|
    ensures ZoneRecords(Filled(z, records)) == ZoneRecords(z) + records
  {
  }

  lemma {:induction false} FreeSlotsAgree(zones: seq<Zone>, zones': seq<Zone>, k: nat)
    requires k <= |zones| && k <= |zones'|
    requires forall z :: 0 <= z < k ==> FreeIn(zones'[z]) == FreeIn(zones[z])
    ensures FreeSlots(zones', k) == FreeSlots(zones, k)
  {
    if k > 0 { FreeSlotsAgree(zones, zones', k - 1); }
  }

  lemma {:induction false} FreeSlotsCover(zones: seq<Zone>, k: nat, z: nat)
    requires z < k <= |zones|
    ensures FreeIn(zones[z]) <= FreeSlots(zones, k)
  {
    if z < k - 1 { FreeSlotsCover(zones, k - 1, z); }
  }

  lemma {:induction false} FreeSlotsAfterAppend(zones: seq<Zone>, zones': seq<Zone>, k: nat, z: nat, records: seq<Record>)
    requires AppendsTo(zones, zones', z, records) && z < k <= |zones|
    ensures FreeSlots(zones', k) + |records| == FreeSlots(zones, k)
  {
    if z < k - 1 {
      FreeSlotsAfterAppend(zones, zones', k - 1, z, records);
    } else {
      FreeSlotsAgree(zones, zones', z);
    }
  }

  lemma {:induction false} AppendKeepsSpace(zones: seq<Zone>, zones': seq<Zone>, used: nat, z: nat, records: seq<Record>)
    requires SpaceValid(zones, used) && AppendsTo(zones, zones', z, records) && z < used
    ensures SpaceValid(zones', used)
    ensures CmrBefore(zones', used) == CmrBefore(zones, used)
    ensures forall y: nat :: y < used ==> ZoneBand(zones', y) == ZoneBand(zones, y)
    ensures FreeSlots(zones', used) + |records| == FreeSlots(zones, used)
  {
    FreeSlotsAfterAppend(zones, zones', used, z, records);
    CmrBeforeAgree(zones, zones', used);
    forall y: nat | y < used ensures ZoneBand(zones', y) == ZoneBand(zones, y) {
      CmrBeforeAgree(zones, zones', y);
    }
  }

  lemma {:induction false} LogAgree(zones: seq<Zone>, zones': seq<Zone>, k: nat, t: int)
    requires k <= |zones| && k <= |zones'|
    requires forall z :: 0 <= z < k ==>
               zones'[z].zoneType == zones[z].zoneType
               && (zones[z].zoneType == t ==> ZoneRecords(zones'[z]) == ZoneRecords(zones[z])
                                              && zones'[z].writeHead == zones[z].writeHead)
    ensures Log(zones', k, t) == Log(zones, k, t)
  {
    if k > 0 { LogAgree(zones, zones', k - 1, t); }
  }

  lemma {:induction false} LogAfterAppend(zones: seq<Zone>, zones': seq<Zone>, k: nat, z: nat, records: seq<Record>)
    requires AppendsTo(zones, zones', z, records) && z < k <= |zones|
    requires forall y :: z < y < k ==> zones[y].zoneType != zones[z].zoneType
    ensures Log(zones', k, zones[z].zoneType) == Log(zones, k, zones[z].zoneType) + records
  {
    var t := zones[z].zoneType;
    if z < k - 1 {
      LogAfterAppend(zones, zones', k - 1, z, records);
    } else {
      LogAgree(zones, zones', z, t);
      FilledRecords(zones[z], records);
      assert (Log(zones, z, t) + ZoneRecords(zones[z])) + records == Log(zones, z, t) + (ZoneRecords(zones[z]) + records);
    }
  }

  /** An append adds its records to the end of the log of the zone's type. */
  lemma {:induction false} AppendGrows(zones: seq<Zone>, zones': seq<Zone>, used: nat, z: nat, records: seq<Record>)
    requires SpaceValid(zones, used) && AppendsTo(zones, zones', z, records) && z < used
    ensures Grew(zones, used, zones', used, zones[z].zoneType, records)
  {
    forall u: int | u != zones[z].zoneType ensures Log(zones', used, u) == Log(zones, used, u) {
      LogAgree(zones, zones', used, u);
    }
    if |records| > 0 {
      LogAfterAppend(zones, zones', used, z, records);
    } else {
      FilledRecords(zones[z], records);
      LogAgree(zones, zones', used, zones[z].zoneType);
    }
  }

  lemma {:induction false} RoomAfterAppend(zones: seq<Zone>, zones': seq<Zone>, k: nat, z: nat, records: seq<Record>)
    requires AppendsTo(zones, zones', z, records) && z < k <= |zones|
    ensures RoomOf(zones', k, zones[z].zoneType) + |records| == RoomOf(zones, k, zones[z].zoneType)
  {
    if z < k - 1 {
      RoomAfterAppend(zones, zones', k - 1, z, records);
    } else {
      RoomOfAgree(zones, zones', z, zones[z].zoneType);
    }
  }

  /** One append is a placement of its own. */
  lemma {:induction false} AppendIsPlaced(zones: seq<Zone>, zones': seq<Zone>, used: nat, z: nat,
                                          fid: nat, lba: nat, taken: nat, skip: Option<nat>)
    requires SpaceValid(zones, used) && z < used
    requires AppendsTo(zones, zones', z, ToPlace(fid, lba, taken, skip))
    requires taken > 0 ==> |ToPlace(fid, lba, taken - 1, skip)| < FreeIn(zones[z])
    ensures Placed(zones, used, zones', used, zones[z].zoneType, fid, lba, taken, skip)
  {
    hide Grew, OnlyLastHasRoom, Laid;
    AppendGrows(zones, zones', used, z, ToPlace(fid, lba, taken, skip));
    RoomAfterAppend(zones, zones', used, z, ToPlace(fid, lba, taken, skip));
    RoomOfCovers(zones, used, z);
  }

  /** A zone that a placement passes over adds no room. */
  lemma {:induction false} NoRoomPast(zones: seq<Zone>, used: nat, z: nat, t: int)
    requires SpaceValid(zones, used) && z < used && NoRoom(zones, z, t)
    requires zones[z].isFull || zones[z].zoneType != t
    ensures NoRoom(zones, z + 1, t)
  {
  }

  /** After an append the zones below still have no room, and nor has this one unless the request is through. */
  lemma {:induction false} NoRoomBehind(zones: seq<Zone>, zones': seq<Zone>, z: nat, records: seq<Record>, t: int)
    requires AppendsTo(zones, zones', z, records) && NoRoom(zones, z, t) && FreeIn(zones'[z]) == 0
    ensures NoRoom(zones', z + 1, t)
  {
  }

  // ----- opening a zone --------------------------------------------------------------------

  /** The band that the next zone of a kind gets. */
  function NextBand(zones: seq<Zone>, used: nat, hint: int): (b: nat)
    requires used < |zones|
    ensures b < |zones|
  {
    if hint == 0 then CmrBefore(zones, used) else |zones| - 1 - (used - CmrBefore(zones, used))
  }

  /** The running counters and boundaries follow from the zones. */
  ghost predicate Tallied(zones: seq<Zone>, used: nat, cmrBoundary: nat, smrBoundary: nat, cmrCount: nat, smrCount: nat,
                          blockRemain: nat) {
    && used <= |zones|
    && cmrCount + smrCount == used
    && cmrCount == cmrBoundary == CmrBefore(zones, used)
    && smrBoundary == (if smrCount == |zones| then ULONG_MAX else |zones| - 1 - smrCount)
    && blockRemain == FreeBlocks(zones, used)
  }

  lemma {:induction false} CounterIsFree(zones: seq<Zone>, used: nat, cmrBoundary: nat, smrBoundary: nat,
                                         cmrCount: nat, smrCount: nat, blockRemain: nat)
    requires Tallied(zones, used, cmrBoundary, smrBoundary, cmrCount, smrCount, blockRemain)
    ensures used <= |zones| && blockRemain == FreeBlocks(zones, used)
  {
  }

  /** Zone `used` goes into use, empty, on the next band of its kind. */
  ghost predicate Opens(zones: seq<Zone>, zones': seq<Zone>, used: nat, hint: int) {
    && used < |zones| == |zones'|
    && zones' == zones[used := zones'[used]]
    && ZoneValid(zones'[used]) && zones'[used].zoneType == hint
    && zones'[used].writeHead == 0 && !zones'[used].isFull
    && zones'[used].logicalLba == NextBand(zones, used, hint) * BAND_TRACKS
  }

  lemma {:induction false} OpenKeepsSpace(zones: seq<Zone>, zones': seq<Zone>, used: nat, hint: int)
    requires SpaceValid(zones, used) && Opens(zones, zones', used, hint) && NoRoom(zones, used, hint)
    ensures SpaceValid(zones', used + 1)
    ensures CmrBefore(zones', used + 1) == CmrBefore(zones, used) + if hint == 0 then 1 else 0
    ensures forall y: nat :: y < used ==> ZoneBand(zones', y) == ZoneBand(zones, y)
    ensures ZoneBand(zones', used) == NextBand(zones, used, hint)
    ensures FreeSlots(zones', used + 1) == FreeSlots(zones, used) + Capacity(hint)
    ensures Grew(zones, used, zones', used + 1, hint, [])
  {
    FreeSlotsAgree(zones, zones', used);
    CmrBeforeAgree(zones, zones', used);
    forall y: nat | y < used ensures ZoneBand(zones', y) == ZoneBand(zones, y) {
      CmrBeforeAgree(zones, zones', y);
    }
    forall u: int ensures Log(zones', used + 1, u) == Log(zones, used, u) {
      LogAgree(zones, zones', used, u);
    }
  }

  lemma {:induction false} FreeIsCounted(zones: seq<Zone>, used: nat, z: nat, cmrBoundary: nat, smrBoundary: nat,
                                         cmrCount: nat, smrCount: nat, blockRemain: nat)
    requires SpaceValid(zones, used) && z < used
    requires Tallied(zones, used, cmrBoundary, smrBoundary, cmrCount, smrCount, blockRemain)
    ensures ZoneValid(zones[z]) && FreeIn(zones[z]) <= blockRemain
  {
    FreeSlotsCover(zones, used, z);
  }

  /** A newly opened zone takes an append right away. */
  lemma {:induction false} ReadyToFill(zones: seq<Zone>, zones': seq<Zone>, used: nat, hint: int)
    requires SpaceValid(zones, used) && Opens(zones, zones', used, hint) && NoRoom(zones, used, hint)
    ensures SpaceValid(zones', used + 1) && NoRoom(zones', used, hint)
    ensures used < |zones'| && !zones'[used].isFull && zones'[used].zoneType == hint && FreeIn(zones'[used]) > 0
  {
    OpenKeepsSpace(zones, zones', used, hint);
  }

  lemma {:induction false} SomethingTaken(zones: seq<Zone>, zones': seq<Zone>, z: nat, fid: nat, lba: nat, taken: nat, n: nat,
                                          skip: Option<nat>)
    requires AppendsTo(zones, zones', z, ToPlace(fid, lba, taken, skip)) && FreeIn(zones[z]) > 0
    requires 0 < n && (taken < n ==> FreeIn(zones'[z]) == 0)
    ensures 0 < taken
  {
  }

  /** Opening a zone when nothing of the type has room, and appending to it, is a placement. */
  lemma {:induction false} OpenPlaces(zones: seq<Zone>, zones1: seq<Zone>, zones': seq<Zone>, used: nat, hint: int,
                                      fid: nat, lba: nat, taken: nat, skip: Option<nat>)
    requires SpaceValid(zones, used) && Opens(zones, zones1, used, hint) && NoRoom(zones, used, hint)
    requires AppendsTo(zones1, zones', used, ToPlace(fid, lba, taken, skip))
    requires 0 < taken && |ToPlace(fid, lba, taken - 1, skip)| < FreeIn(zones1[used])
    ensures Placed(zones, used, zones', used + 1, hint, fid, lba, taken, skip)
  {
    hide Grew, OnlyLastHasRoom, Laid, ToPlace, ZoneValid;
    OpenKeepsSpace(zones, zones1, used, hint);
    AppendIsPlaced(zones1, zones', used + 1, used, fid, lba, taken, skip);
    GrewTwice(zones, used, zones1, used + 1, zones', used + 1, hint, [], ToPlace(fid, lba, taken, skip));
    assert [] + ToPlace(fid, lba, taken, skip) == ToPlace(fid, lba, taken, skip);
    RoomOfAgree(zones, zones1, used, hint);
    NoRoomIsNone(zones, used, hint);
  }

  /** The boundary and the count of the kind move by one; a conventional zone loses the slots it seals. */
  ghost predicate CountsOpening(hint: int, cmrBoundary: nat, smrBoundary: nat, cmrCount: nat, smrCount: nat, blockRemain: nat,
                                cmrBoundary': nat, smrBoundary': nat, cmrCount': nat, smrCount': nat, blockRemain': nat) {
    if hint == 0 then
      && cmrBoundary' == cmrBoundary + 1 && smrBoundary' == smrBoundary && cmrCount' == cmrCount + 1 && smrCount' == smrCount
      && blockRemain' == blockRemain - (BAND_TRACKS - CMR_TRACKS)
    else
      && cmrBoundary' == cmrBoundary && smrBoundary' == Decrement(smrBoundary)
      && cmrCount' == cmrCount && smrCount' == smrCount + 1 && blockRemain' == blockRemain
  }

  lemma {:induction false} OpenKeepsTally(zones: seq<Zone>, zones': seq<Zone>, used: nat, hint: int,
      cmrBoundary: nat, smrBoundary: nat, cmrCount: nat, smrCount: nat, blockRemain: nat,
      cmrBoundary': nat, smrBoundary': nat, cmrCount': nat, smrCount': nat, blockRemain': nat)
    requires SpaceValid(zones, used) && Opens(zones, zones', used, hint) && NoRoom(zones, used, hint)
    requires Tallied(zones, used, cmrBoundary, smrBoundary, cmrCount, smrCount, blockRemain)
    requires CountsOpening(hint, cmrBoundary, smrBoundary, cmrCount, smrCount, blockRemain,
                           cmrBoundary', smrBoundary', cmrCount', smrCount', blockRemain')
    ensures Tallied(zones', used + 1, cmrBoundary', smrBoundary', cmrCount', smrCount', blockRemain')
  {
    OpenKeepsSpace(zones, zones', used, hint);
  }

  // ----- finding records -------------------------------------------------------------------

  ghost predicate HoldsAt(zones: seq<Zone>, z: nat, j: nat, r: Record) {
    z < |zones| && j < zones[z].writeHead <= |zones[z].blocks| && zones[z].blocks[j].record == r
  }

  datatype Position = Position(zone: nat, slot: nat)

  /** The first slot, zone by zone, that holds the record. */
  ghost predicate FirstAt(zones: seq<Zone>, p: Position, r: Record) {
    && HoldsAt(zones, p.zone, p.slot, r)
    && forall z: nat, j: nat :: z < p.zone || (z == p.zone && j < p.slot) ==> !HoldsAt(zones, z, j, r)
  }

  /** One of the first `k` zones holds the record. */
  ghost predicate Recorded(zones: seq<Zone>, k: nat, r: Record) {
    exists z: nat, j: nat :: z < k && HoldsAt(zones, z, j, r)
  }

  /** None of the addresses `lba` up to `lba + n` is recorded for the file. */
  ghost predicate NoneRecorded(zones: seq<Zone>, k: nat, fid: nat, lba: nat, n: nat) {
    forall r: Record :: r.fid == fid && lba <= r.lba < lba + n ==> !Recorded(zones, k, r)
  }

  lemma {:induction false} NothingRecorded(zones: seq<Zone>, k: nat, fid: nat, lba: nat)
    ensures NoneRecorded(zones, k, fid, lba, 0)
  {
  }

  lemma {:induction false} NoneRecordedMore(zones: seq<Zone>, k: nat, fid: nat, lba: nat, n: nat)
    requires NoneRecorded(zones, k, fid, lba, n) && !Recorded(zones, k, Record(fid, lba + n))
    ensures NoneRecorded(zones, k, fid, lba, n + 1)
  {
    forall r: Record | r.fid == fid && lba <= r.lba < lba + n + 1 ensures !Recorded(zones, k, r) {
      if r.lba == lba + n { assert r == Record(fid, lba + n); }
    }
  }

  lemma {:induction false} WrittenSlotsExist(zones: seq<Zone>, used: nat)
    requires SpaceValid(zones, used) && used <= |zones|
    ensures forall z :: 0 <= z < used ==> zones[z].writeHead <= |zones[z].blocks|
  {
  }

  lemma {:induction false} LogHoldsRecorded(zones: seq<Zone>, k: nat, z: nat, j: nat, r: Record)
    requires z < k <= |zones| && HoldsAt(zones, z, j, r)
    ensures r in Log(zones, k, zones[z].zoneType)
  {
    if z < k - 1 {
      LogHoldsRecorded(zones, k - 1, z, j, r);
    } else {
      assert ZoneRecords(zones[z])[j] == r;
    }
  }

  lemma {:induction false} LoggedIsRecorded(zones: seq<Zone>, k: nat, t: int, r: Record)
    requires k <= |zones| && r in Log(zones, k, t)
    ensures Recorded(zones, k, r)
  {
    if r in Log(zones, k - 1, t) {
      LoggedIsRecorded(zones, k - 1, t, r);
      var z: nat, j: nat :| z < k - 1 && HoldsAt(zones, z, j, r);
    } else {
      var j :| 0 <= j < |ZoneRecords(zones[k - 1])| && ZoneRecords(zones[k - 1])[j] == r;
      assert HoldsAt(zones, k - 1, j, r);
    }
  }

  /** What was recorded stays recorded while logs only grow, and what they grew by is recorded too. */
  lemma {:induction false} GrowthIsRecorded(zones: seq<Zone>, used: nat, zones': seq<Zone>, used': nat, t: int,
                                            records: seq<Record>, r: Record)
    requires used <= |zones| && used' <= |zones'| && Grew(zones, used, zones', used', t, records)
    requires Recorded(zones, used, r) || r in records
    ensures Recorded(zones', used', r)
  {
    if r in records {
      var i :| 0 <= i < |records| && records[i] == r;
      assert Log(zones', used', t)[|Log(zones, used, t)| + i] == r;
      LoggedIsRecorded(zones', used', t, r);
    } else {
      var z: nat, j: nat :| z < used && HoldsAt(zones, z, j, r);
      var u := zones[z].zoneType;
      LogHoldsRecorded(zones, used, z, j, r);
      var i :| 0 <= i < |Log(zones, used, u)| && Log(zones, used, u)[i] == r;
      assert Log(zones', used', u)[i] == r;
      LoggedIsRecorded(zones', used', u, r);
    }
  }

  /** Nothing that was recorded is forgotten. */
  ghost predicate KeepsRecords(zones: seq<Zone>, used: nat, zones': seq<Zone>, used': nat) {
    forall r :: Recorded(zones, used, r) ==> Recorded(zones', used', r)
  }

  /** Every address `lba` up to `lba + n` is recorded for the file. */
  ghost predicate AllRecorded(zones: seq<Zone>, k: nat, fid: nat, lba: nat, n: nat) {
    forall r: Record :: r.fid == fid && lba <= r.lba < lba + n ==> Recorded(zones, k, r)
  }

  lemma {:induction false} SameKeepsRecords(zones: seq<Zone>, used: nat)
    ensures KeepsRecords(zones, used, zones, used)
  {
  }

  /** What the update scan of a write finds: the first address of the request that is recorded for the file, at its first slot. */
  ghost predicate Finds(zones: seq<Zone>, used: nat, fid: nat, lba: nat, n: nat, skip: Option<nat>, place: Option<Position>) {
    match skip
    case None => place.None? && NoneRecorded(zones, used, fid, lba, n)
    case Some(l) =>
      && lba <= l < lba + n && NoneRecorded(zones, used, fid, lba, l - lba)
      && place.Some? && place.value.zone < used && FirstAt(zones, place.value, Record(fid, l))
  }

  lemma {:induction false} FoundFirst(zones: seq<Zone>, used: nat, fid: nat, lba: nat, n: nat, l: nat, p: Position)
    requires lba <= l < lba + n && NoneRecorded(zones, used, fid, lba, l - lba)
    requires p.zone < used && FirstAt(zones, p, Record(fid, l))
    ensures Finds(zones, used, fid, lba, n, Some(l), Some(p))
  {
  }

  lemma {:induction false} FoundNothing(zones: seq<Zone>, used: nat, fid: nat, lba: nat, n: nat)
    requires NoneRecorded(zones, used, fid, lba, n)
    ensures Finds(zones, used, fid, lba, n, None, None)
  {
  }

  /** What is found is a written slot that holds the record. */
  lemma {:induction false} FoundSlot(zones: seq<Zone>, used: nat, fid: nat, lba: nat, n: nat,
                                     skip: Option<nat>, place: Option<Position>)
    requires used <= |zones| && Finds(zones, used, fid, lba, n, skip, place)
    ensures skip.Some? <==> place.Some?
    ensures skip.Some? ==>
              && lba <= skip.value < lba + n && Recorded(zones, used, Record(fid, skip.value))
              && var p := place.value;
                p.zone < used && p.slot < zones[p.zone].writeHead <= |zones[p.zone].blocks|
                && zones[p.zone].blocks[p.slot].record == Record(fid, skip.value)
  {
  }

  lemma {:induction false} FindsIsFirst(zones: seq<Zone>, used: nat, fid: nat, lba: nat, n: nat,
                                        skip: Option<nat>, place: Option<Position>, l: nat)
    requires Finds(zones, used, fid, lba, n, skip, place)
    requires lba <= l < lba + n && Recorded(zones, used, Record(fid, l))
    ensures skip.Some? && skip.value <= l
  {
    var r := Record(fid, l);
    assert r.fid == fid && r.lba == l;
  }

  /** The scan leaves no choice. */
  lemma {:induction false} FindsIsDeterministic(zones: seq<Zone>, used: nat, fid: nat, lba: nat, n: nat,
                                                skip: Option<nat>, place: Option<Position>,
                                                skip': Option<nat>, place': Option<Position>)
    requires used <= |zones|
    requires Finds(zones, used, fid, lba, n, skip, place) && Finds(zones, used, fid, lba, n, skip', place')
    ensures skip == skip' && place == place'
  {
  }

  /** The bands an update in place turns RMW: its zone's, if that is shingled and the slot is not the last one written. */
  function Turned(zones: seq<Zone>, place: Option<Position>): set<nat> {
    match place
    case None => {}
    case Some(p) =>
      if p.zone < |zones| && zones[p.zone].zoneType != 0 && p.slot + 1 < zones[p.zone].writeHead
      then {ZoneBand(zones, p.zone)} else {}
  }

  lemma {:induction false} NothingTurns(zones: seq<Zone>, rewritten: set<nat>)
    ensures rewritten + Turned(zones, None) == rewritten
  {
  }

  lemma {:induction false} ToPlaceHas(fid: nat, lba: nat, n: nat, skip: Option<nat>, l: nat)
    requires lba <= l < lba + n && skip != Some(l)
    ensures Record(fid, l) in ToPlace(fid, lba, n, skip)
  {
    if l < lba + n - 1 { ToPlaceHas(fid, lba, n - 1, skip, l); }
  }

  lemma {:induction false} ToPlaceFile(fid: nat, lba: nat, n: nat, skip: Option<nat>)
    ensures forall i :: 0 <= i < |ToPlace(fid, lba, n, skip)| ==> ToPlace(fid, lba, n, skip)[i].fid == fid
    ensures |ToPlace(fid, lba, n, skip)| <= n
  {
    if n > 0 { ToPlaceFile(fid, lba, n - 1, skip); }
  }

  /** A placement forgets nothing, and records every address it went through, the updated one included. */
  lemma {:induction false} PlacedIsRecorded(zones: seq<Zone>, used: nat, zones': seq<Zone>, used': nat, t: int,
                                            fid: nat, lba: nat, done: nat, skip: Option<nat>)
    requires Placed(zones, used, zones', used', t, fid, lba, done, skip)
    requires skip.Some? ==> Recorded(zones, used, Record(fid, skip.value))
    ensures KeepsRecords(zones, used, zones', used')
    ensures AllRecorded(zones', used', fid, lba, done)
  {
    var records := ToPlace(fid, lba, done, skip);
    forall r | Recorded(zones, used, r) ensures Recorded(zones', used', r) {
      GrowthIsRecorded(zones, used, zones', used', t, records, r);
    }
    forall r: Record | r.fid == fid && lba <= r.lba < lba + done ensures Recorded(zones', used', r) {
      if skip != Some(r.lba) { ToPlaceHas(fid, lba, done, skip, r.lba); }
      GrowthIsRecorded(zones, used, zones', used', t, records, r);
    }
  }

  // ----- counting records -------------------------------------------------------------------

  function CountIn(blocks: seq<Slot>, k: nat, wanted: Record -> bool): nat
    requires k <= |blocks|
  {
    if k == 0 then 0 else CountIn(blocks, k - 1, wanted) + if wanted(blocks[k - 1].record) then 1 else 0
  }

  function OfFile(fid: nat): Record -> bool {
    (r: Record) => r.fid == fid
  }

  function OfRange(fid: nat, lo: nat, hi: nat): Record -> bool {
    (r: Record) => r.fid == fid && lo <= r.lba < hi
  }

  function FoundIn(z: Zone, wanted: Record -> bool): nat {
    if z.writeHead <= |z.blocks| then CountIn(z.blocks, z.writeHead, wanted) else 0
  }

  lemma {:induction false} CountInIsSize(blocks: seq<Slot>, k: nat, wanted: Record -> bool, slots: set<nat>)
    requires k <= |blocks| && forall j: nat :: j in slots <==> j < k && wanted(blocks[j].record)
    ensures CountIn(blocks, k, wanted) == |slots|
  {
    if k > 0 {
      CountInIsSize(blocks, k - 1, wanted, slots - {k - 1});
    } else {
      assert slots == {};
    }
  }

  /** What a read counts in a zone: the written slots that name the file and an address from `lo` up to `hi`. */
  lemma {:induction false} RangeIsCounted(z: Zone, fid: nat, lo: nat, hi: nat, slots: set<nat>)
    requires z.writeHead <= |z.blocks|
    requires forall j: nat :: j in slots <==>
               j < z.writeHead && z.blocks[j].record.fid == fid && lo <= z.blocks[j].record.lba < hi
    ensures FoundIn(z, OfRange(fid, lo, hi)) == |slots|
  {
    CountInIsSize(z.blocks, z.writeHead, OfRange(fid, lo, hi), slots);
  }

  /** What a delete counts in a zone: the written slots that name the file. */
  lemma {:induction false} FileIsCounted(z: Zone, fid: nat, slots: set<nat>)
    requires z.writeHead <= |z.blocks|
    requires forall j: nat :: j in slots <==> j < z.writeHead && z.blocks[j].record.fid == fid
    ensures FoundIn(z, OfFile(fid)) == |slots|
  {
    CountInIsSize(z.blocks, z.writeHead, OfFile(fid), slots);
  }

  /** What the counter of a request is at after `k` zones; it wraps when more is found than asked for. */
  function LeftAfter(zones: seq<Zone>, k: nat, n: nat, wanted: Record -> bool): nat
    requires k <= |zones|
  {
    if k == 0 then n
    else if FoundIn(zones[k - 1], wanted) > 0 then Minus(LeftAfter(zones, k - 1, n, wanted), FoundIn(zones[k - 1], wanted))
    else LeftAfter(zones, k - 1, n, wanted)
  }

  /**
    The counter of a read after `k` zones. It is also the length of the range that is still looked for, so the range
    shrinks from its end with everything that is found, wherever that was.
   */
  function LeftToRead(zones: seq<Zone>, k: nat, fid: nat, lba: nat, n: nat): nat
    requires k <= |zones|
  {
    if k == 0 then n
    else
      var left := LeftToRead(zones, k - 1, fid, lba, n);
      var found := FoundIn(zones[k - 1], OfRange(fid, lba, Plus(lba, left)));
      if found > 0 then Minus(left, found) else left
  }

  /** What a read finds in zone `z`. */
  function ReadIn(zones: seq<Zone>, z: nat, fid: nat, lba: nat, n: nat): nat
    requires z < |zones|
  {
    FoundIn(zones[z], OfRange(fid, lba, Plus(lba, LeftToRead(zones, z, fid, lba, n))))
  }

  /** What a read finds in each of the first `k` zones. */
  ghost function ReadCounts(zones: seq<Zone>, k: nat, fid: nat, lba: nat, n: nat): (r: seq<nat>)
    requires k <= |zones|
    ensures |r| == k && forall z :: 0 <= z < k ==> r[z] == ReadIn(zones, z, fid, lba, n)
  {
    seq(k, z requires 0 <= z < k => ReadIn(zones, z, fid, lba, n))
  }

  lemma {:induction false} ReadCountsMore(zones: seq<Zone>, k: nat, fid: nat, lba: nat, n: nat)
    requires k < |zones|
    ensures ReadCounts(zones, k + 1, fid, lba, n) == ReadCounts(zones, k, fid, lba, n) + [ReadIn(zones, k, fid, lba, n)]
  {
  }

  lemma {:induction false} CountInNone(blocks: seq<Slot>, k: nat, wanted: Record -> bool)
    requires k <= |blocks| && forall r :: !wanted(r)
    ensures CountIn(blocks, k, wanted) == 0
  {
    if k > 0 { CountInNone(blocks, k - 1, wanted); }
  }

  lemma {:induction false} CountInBound(blocks: seq<Slot>, k: nat, wanted: Record -> bool)
    requires k <= |blocks|
    ensures CountIn(blocks, k, wanted) <= k
  {
    if k > 0 { CountInBound(blocks, k - 1, wanted); }
  }

  lemma {:induction false} FoundInBound(z: Zone, wanted: Record -> bool)
    ensures FoundIn(z, wanted) <= z.writeHead
  {
    if z.writeHead <= |z.blocks| { CountInBound(z.blocks, z.writeHead, wanted); }
  }

  lemma {:induction false} LeftToReadStep(zones: seq<Zone>, z: nat, fid: nat, lba: nat, n: nat)
    requires z < |zones|
    ensures ReadIn(zones, z, fid, lba, n) == FoundIn(zones[z], OfRange(fid, lba, Plus(lba, LeftToRead(zones, z, fid, lba, n))))
    ensures LeftToRead(zones, z + 1, fid, lba, n)
            == if ReadIn(zones, z, fid, lba, n) > 0
               then Minus(LeftToRead(zones, z, fid, lba, n), ReadIn(zones, z, fid, lba, n)) else LeftToRead(zones, z, fid, lba, n)
  {
  }

  lemma {:induction false} SubsetCount(a: set<nat>, b: set<nat>)
    requires a <= b
    ensures |a| <= |b| && (|a| == |b| <==> a == b)
  {
    assert b == a + (b - a);
    if |a| == |b| { assert |b - a| == 0; }
  }

  /**
    A read finds all that a zone holds of its range if and only if none of that lies at or past the end that its counter
    leaves it: what was found in earlier zones is taken off the end of the range, wherever it was.
   */
  lemma {:induction false} ReadMissesExactly(zones: seq<Zone>, z: nat, fid: nat, lba: nat, n: nat, asked: set<nat>)
    requires z < |zones| && zones[z].writeHead <= |zones[z].blocks|
    requires LeftToRead(zones, z, fid, lba, n) <= n && lba + n <= ULONG_MAX
    requires forall j: nat :: j in asked <==>
               j < zones[z].writeHead && zones[z].blocks[j].record.fid == fid && lba <= zones[z].blocks[j].record.lba < lba + n
    ensures ReadIn(zones, z, fid, lba, n) <= |asked|
    ensures ReadIn(zones, z, fid, lba, n) == |asked|
            <==> forall j :: j in asked ==> zones[z].blocks[j].record.lba < lba + LeftToRead(zones, z, fid, lba, n)
  {
    hide FoundIn, CountIn, OfRange;
    LeftToReadStep(zones, z, fid, lba, n);
    hide LeftToRead, ReadIn;
    var end := lba + LeftToRead(zones, z, fid, lba, n);
    var found := set j | j in asked && zones[z].blocks[j].record.lba < end;
    RangeIsCounted(zones[z], fid, lba, end, found);
    SubsetCount(found, asked);
  }

  lemma {:induction false} NothingInEmptyRange(z: Zone, fid: nat, lba: nat)
    ensures FoundIn(z, OfRange(fid, lba, Plus(lba, 0))) == 0
  {
    if z.writeHead <= |z.blocks| { CountInNone(z.blocks, z.writeHead, OfRange(fid, lba, Plus(lba, 0))); }
  }

  /** Once the counter of a read is zero its range is empty, so stopping there loses nothing. */
  lemma {:induction false} ReadStops(zones: seq<Zone>, k: nat, z: nat, fid: nat, lba: nat, n: nat)
    requires k <= z < |zones| && LeftToRead(zones, k, fid, lba, n) == 0
    ensures LeftToRead(zones, z, fid, lba, n) == 0 && ReadIn(zones, z, fid, lba, n) == 0
  {
    hide *;
    if k < z {
      ReadStops(zones, k, z - 1, fid, lba, n);
      LeftToReadStep(zones, z - 1, fid, lba, n);
    }
    LeftToReadStep(zones, z, fid, lba, n);
    NothingInEmptyRange(zones[z], fid, lba);
  }

  /** The sweep gets to zone `z`: no earlier zone brought the counter to exactly zero. */
  ghost predicate Reached(zones: seq<Zone>, z: nat, n: nat, wanted: Record -> bool)
    requires z <= |zones|
  {
    forall y: nat :: y < z && FoundIn(zones[y], wanted) > 0 ==> LeftAfter(zones, y + 1, n, wanted) != 0
  }

  /** What a delete finds in each of the first `k` zones, as far as its sweep gets. */
  ghost function DeleteCounts(zones: seq<Zone>, k: nat, n: nat, fid: nat): (r: seq<nat>)
    requires k <= |zones|
    ensures |r| == k
    ensures forall z :: 0 <= z < k ==> r[z] == if Reached(zones, z, n, OfFile(fid)) then FoundIn(zones[z], OfFile(fid)) else 0
  {
    seq(k, z requires 0 <= z < k => if Reached(zones, z, n, OfFile(fid)) then FoundIn(zones[z], OfFile(fid)) else 0)
  }

  lemma {:induction false} DeleteCountsMore(zones: seq<Zone>, k: nat, n: nat, fid: nat)
    requires k < |zones| && Reached(zones, k, n, OfFile(fid))
    ensures DeleteCounts(zones, k + 1, n, fid) == DeleteCounts(zones, k, n, fid) + [FoundIn(zones[k], OfFile(fid))]
  {
  }

  /** A delete among the first `k` zones: every zone it reaches and finds records in loses its full-mark. */
  ghost function Swept(zones: seq<Zone>, k: nat, n: nat, fid: nat): (r: seq<Zone>)
    requires k <= |zones|
    ensures |r| == |zones|
    ensures forall z :: 0 <= z < |r| ==> r[z] == zones[z] || r[z] == zones[z].(isFull := false)
  {
    seq(|zones|, z requires 0 <= z < |zones| =>
      if z < k && Reached(zones, z, n, OfFile(fid)) && FoundIn(zones[z], OfFile(fid)) > 0
      then zones[z].(isFull := false) else zones[z])
  }

  lemma {:induction false} SweptOne(zones: seq<Zone>, now: seq<Zone>, z: nat, n: nat, fid: nat)
    requires z < |zones| && now == Swept(zones, z, n, fid) && Reached(zones, z, n, OfFile(fid))
    ensures FoundIn(now[z], OfFile(fid)) == FoundIn(zones[z], OfFile(fid)) && now[z] == zones[z]
    ensures Swept(zones, z + 1, n, fid)
            == if FoundIn(zones[z], OfFile(fid)) > 0 then now[z := now[z].(isFull := false)] else now
    ensures LeftAfter(zones, z + 1, n, OfFile(fid)) != 0 || FoundIn(zones[z], OfFile(fid)) == 0
            ==> Reached(zones, z + 1, n, OfFile(fid))
  {
  }

  lemma {:induction false} SweepStops(zones: seq<Zone>, z: nat, k: nat, n: nat, fid: nat)
    requires z < k <= |zones| && FoundIn(zones[z], OfFile(fid)) > 0 && LeftAfter(zones, z + 1, n, OfFile(fid)) == 0
    ensures Swept(zones, k, n, fid) == Swept(zones, z + 1, n, fid)
    ensures forall y :: z < y < k ==> DeleteCounts(zones, k, n, fid)[y] == 0
  {
    forall y | z < y < |zones| ensures !Reached(zones, y, n, OfFile(fid)) {
    }
  }

  lemma {:induction false} SweepStarts(zones: seq<Zone>, n: nat, fid: nat)
    ensures Swept(zones, 0, n, fid) == zones && Reached(zones, 0, n, OfFile(fid))
    ensures LeftAfter(zones, 0, n, OfFile(fid)) == n
  {
  }

  lemma {:induction false} LeftAfterStep(zones: seq<Zone>, z: nat, n: nat, wanted: Record -> bool)
    requires z < |zones|
    ensures LeftAfter(zones, z + 1, n, wanted)
            == if FoundIn(zones[z], wanted) > 0 then Minus(LeftAfter(zones, z, n, wanted), FoundIn(zones[z], wanted))
               else LeftAfter(zones, z, n, wanted)
  {
  }

  lemma {:induction false} SweepKeepsRecords(zones: seq<Zone>, used: nat, k: nat, n: nat, fid: nat)
    requires k <= |zones|
    ensures KeepsRecords(zones, used, Swept(zones, k, n, fid), used)
  {
    var zones' := Swept(zones, k, n, fid);
    forall r | Recorded(zones, used, r) ensures Recorded(zones', used, r) {
      var z: nat, j: nat :| z < used && HoldsAt(zones, z, j, r);
      assert HoldsAt(zones', z, j, r);
    }
  }

  /** Clearing a full-mark is an append of nothing. */
  lemma {:induction false} ClearIsAppend(zones: seq<Zone>, zones': seq<Zone>, used: nat, z: nat, fid: nat)
    requires SpaceValid(zones, used) && z < used
    requires zones' == zones[z := zones[z].(isFull := false)]
    ensures AppendsTo(zones, zones', z, ToPlace(fid, 0, 0, None)) && |ToPlace(fid, 0, 0, None)| == 0
  {
    FilledNone(zones[z]);
  }

  // ----- nothing else is recorded -------------------------------------------------------------

  /** Only addresses of the request were added to what is recorded. */
  ghost predicate AddsOnly(zones: seq<Zone>, used: nat, zones': seq<Zone>, used': nat, fid: nat, lba: nat, n: nat) {
    forall r: Record :: Recorded(zones', used', r) ==> Recorded(zones, used, r) || (r.fid == fid && lba <= r.lba < lba + n)
  }

  lemma {:induction false} PlacedAddsOnly(zones: seq<Zone>, used: nat, zones': seq<Zone>, used': nat, t: int,
                                          fid: nat, lba: nat, done: nat, n: nat, skip: Option<nat>)
    requires Placed(zones, used, zones', used', t, fid, lba, done, skip) && done <= n
    ensures AddsOnly(zones, used, zones', used', fid, lba, n)
  {
    var records := ToPlace(fid, lba, done, skip);
    ToPlaceIsRange(fid, lba, done, skip);
    forall r: Record | Recorded(zones', used', r)
      ensures Recorded(zones, used, r) || (r.fid == fid && lba <= r.lba < lba + n)
    {
      var z: nat, j: nat :| z < used' && HoldsAt(zones', z, j, r);
      var u := zones'[z].zoneType;
      LogHoldsRecorded(zones', used', z, j, r);
      var i :| 0 <= i < |Log(zones', used', u)| && Log(zones', used', u)[i] == r;
      if i < |Log(zones, used, u)| {
        assert Log(zones, used, u)[i] == r;
        LoggedIsRecorded(zones, used, u, r);
      } else {
        assert r == records[i - |Log(zones, used, t)|];
      }
    }
  }

  lemma {:induction false} SameAddsNothing(zones: seq<Zone>, used: nat, fid: nat, lba: nat, n: nat)
    ensures AddsOnly(zones, used, zones, used, fid, lba, n)
  {
  }

  lemma {:induction false} SweepAddsNothing(zones: seq<Zone>, used: nat, k: nat, n: nat, fid: nat, f: nat, lba: nat, m: nat)
    requires k <= |zones|
    ensures AddsOnly(zones, used, Swept(zones, k, n, fid), used, f, lba, m)
  {
    var zones' := Swept(zones, k, n, fid);
    forall r: Record | Recorded(zones', used, r) ensures Recorded(zones, used, r) {
      var z: nat, j: nat :| z < used && HoldsAt(zones', z, j, r);
      assert HoldsAt(zones, z, j, r);
    }
  }

  // ----- what logs determine ------------------------------------------------------------------

  /** The zones in use agree on everything but full-marks and the memory of slots not yet written. */
  ghost predicate Alike(a: seq<Zone>, b: seq<Zone>, used: nat) {
    && used <= |a| == |b|
    && forall z :: 0 <= z < used ==>
         && a[z].zoneType == b[z].zoneType && a[z].writeHead == b[z].writeHead && ZoneRecords(a[z]) == ZoneRecords(b[z])
  }

  /** Of one type, the same zones without room have logs of the same length. */
  lemma {:induction false} FullLogs(a: seq<Zone>, b: seq<Zone>, k: nat, t: int)
    requires k <= |a| == |b|
    requires forall z :: 0 <= z < k ==> a[z].zoneType == b[z].zoneType && ZoneValid(a[z]) && ZoneValid(b[z])
    requires NoRoom(a, k, t) && NoRoom(b, k, t)
    ensures |Log(a, k, t)| == |Log(b, k, t)|
  {
    if k > 0 {
      FullLogs(a, b, k - 1, t);
      assert a[k - 1].zoneType == t ==> FreeIn(a[k - 1]) == 0 == FreeIn(b[k - 1]);
    }
  }

  lemma {:induction false} SameSplit(a: seq<Record>, b: seq<Record>, c: seq<Record>, d: seq<Record>)
    requires a + b == c + d && |a| == |c|
    ensures a == c && b == d
  {
    assert a == (a + b)[..|a|] && c == (c + d)[..|c|];
    assert b == (a + b)[|a|..] && d == (c + d)[|c|..];
  }

  ghost predicate SameLogs(a: seq<Zone>, b: seq<Zone>, k: nat) {
    k <= |a| == |b| && forall t: int :: Log(a, k, t) == Log(b, k, t)
  }

  lemma {:induction false} LogOfLast(zones: seq<Zone>, z: nat, t: int)
    requires z < |zones| && ZoneValid(zones[z])
    ensures Log(zones, z + 1, t) == if zones[z].zoneType == t then Log(zones, z, t) + ZoneRecords(zones[z]) else Log(zones, z, t)
    ensures |ZoneRecords(zones[z])| == zones[z].writeHead
  {
  }

  /** When the logs without a zone are known to be of the same length, the logs with it determine what it holds. */
  lemma {:induction false} LastZoneIsDetermined(a: seq<Zone>, b: seq<Zone>, z: nat)
    requires SameLogs(a, b, z + 1) && ZoneValid(a[z]) && ZoneValid(b[z])
    requires a[z].zoneType == b[z].zoneType && |Log(a, z, a[z].zoneType)| == |Log(b, z, a[z].zoneType)|
    ensures SameLogs(a, b, z) && a[z].writeHead == b[z].writeHead && ZoneRecords(a[z]) == ZoneRecords(b[z])
  {
    hide Log, ZoneRecords, ZoneValid;
    var t := a[z].zoneType;
    LogOfLast(a, z, t);
    LogOfLast(b, z, t);
    SameSplit(Log(a, z, t), ZoneRecords(a[z]), Log(b, z, t), ZoneRecords(b[z]));
    forall u: int ensures Log(a, z, u) == Log(b, z, u) {
      LogOfLast(a, z, u);
      LogOfLast(b, z, u);
    }
  }

  lemma {:induction false} NoRoomBefore(zones: seq<Zone>, used: nat, z: nat)
    requires SpaceValid(zones, used) && z < used
    ensures NoRoom(zones, z, zones[z].zoneType) && forall y :: 0 <= y <= z ==> ZoneValid(zones[y])
  {
  }

  /** Since only the last zone of a type has room, its log falls into its zones in one way only. */
  lemma {:induction false} LogsDetermine(a: seq<Zone>, b: seq<Zone>, used: nat, k: nat)
    requires SpaceValid(a, used) && SpaceValid(b, used) && k <= used <= |a| == |b|
    requires forall z :: 0 <= z < used ==> a[z].zoneType == b[z].zoneType
    requires SameLogs(a, b, k)
    ensures Alike(a, b, k)
  {
    hide SpaceValid, Log, ZoneValid, SameLogs, NoRoom, ZoneRecords;
    if k > 0 {
      NoRoomBefore(a, used, k - 1);
      NoRoomBefore(b, used, k - 1);
      FullLogs(a, b, k - 1, a[k - 1].zoneType);
      LastZoneIsDetermined(a, b, k - 1);
      LogsDetermine(a, b, used, k - 1);
    }
  }

  lemma {:induction false} AlikeLogs(a: seq<Zone>, b: seq<Zone>, used: nat, t: int)
    requires Alike(a, b, used)
    ensures Log(a, used, t) == Log(b, used, t)
  {
    LogAgree(a, b, used, t);
  }

  lemma {:induction false} AlikeHolds(a: seq<Zone>, b: seq<Zone>, used: nat, z: nat, j: nat, r: Record)
    requires SpaceValid(a, used) && SpaceValid(b, used) && Alike(a, b, used) && z < used
    ensures HoldsAt(a, z, j, r) <==> HoldsAt(b, z, j, r)
  {
    if j < a[z].writeHead {
      assert ZoneRecords(a[z])[j] == a[z].blocks[j].record && ZoneRecords(b[z])[j] == b[z].blocks[j].record;
    }
  }

  lemma {:induction false} AlikeRecorded(a: seq<Zone>, b: seq<Zone>, used: nat, r: Record)
    requires SpaceValid(a, used) && SpaceValid(b, used) && Alike(a, b, used) && Recorded(a, used, r)
    ensures Recorded(b, used, r)
  {
    var z: nat, j: nat :| z < used && HoldsAt(a, z, j, r);
    AlikeHolds(a, b, used, z, j, r);
  }

  lemma {:induction false} AlikeFirst(a: seq<Zone>, b: seq<Zone>, used: nat, p: Position, r: Record)
    requires SpaceValid(a, used) && SpaceValid(b, used) && Alike(a, b, used) && p.zone < used && FirstAt(a, p, r)
    ensures FirstAt(b, p, r)
  {
    AlikeHolds(a, b, used, p.zone, p.slot, r);
    forall z: nat, j: nat | z < p.zone || (z == p.zone && j < p.slot) ensures !HoldsAt(b, z, j, r) {
      AlikeHolds(a, b, used, z, j, r);
    }
  }

  lemma {:induction false} AlikeFinds(a: seq<Zone>, b: seq<Zone>, used: nat, fid: nat, lba: nat, n: nat,
                                      skip: Option<nat>, place: Option<Position>)
    requires SpaceValid(a, used) && SpaceValid(b, used) && Alike(a, b, used)
    requires Finds(a, used, fid, lba, n, skip, place)
    ensures Finds(b, used, fid, lba, n, skip, place)
  {
    hide SpaceValid, Alike, Recorded, FirstAt;
    assert Alike(b, a, used) by { AlikeIsSymmetric(a, b, used); }
    forall r | Recorded(b, used, r) ensures Recorded(a, used, r) { AlikeRecorded(b, a, used, r); }
    if place.Some? { AlikeFirst(a, b, used, place.value, Record(fid, skip.value)); }
  }

  lemma {:induction false} AlikeIsSymmetric(a: seq<Zone>, b: seq<Zone>, used: nat)
    requires Alike(a, b, used)
    ensures Alike(b, a, used)
  {
  }

  /** Alike zones lie on the same bands and have the same room. */
  lemma {:induction false} AlikeRoom(a: seq<Zone>, b: seq<Zone>, used: nat, t: int)
    requires Alike(a, b, used)
    ensures RoomOf(a, used, t) == RoomOf(b, used, t) && FreeBlocks(a, used) == FreeBlocks(b, used)
    ensures forall p: Position :: p.zone < used ==> Turned(a, Some(p)) == Turned(b, Some(p))
  {
    RoomOfAgree(a, b, used, t);
    FreeSlotsAgree(a, b, used);
    forall p: Position | p.zone < used ensures Turned(a, Some(p)) == Turned(b, Some(p)) {
      CmrBeforeAgree(a, b, p.zone);
    }
  }

  lemma {:induction false} NeededIsExact(a: seq<Zone>, b: seq<Zone>, used: nat, usedA: nat, usedB: nat, t: int,
                                         fid: nat, lba: nat, done: nat, skip: Option<nat>)
    requires used <= |a| && used <= |b| && used <= usedA && used <= usedB && RoomOf(a, used, t) == RoomOf(b, used, t)
    requires Needed(a, used, usedA, t, fid, lba, done, skip) && Needed(b, used, usedB, t, fid, lba, done, skip)
    ensures usedA == usedB
  {
  }

  /** The same placement makes zones that were alike alike again: contracts on logs leave no choice of zones. */
  lemma {:induction false} PlacedIsDeterministic(a: seq<Zone>, b: seq<Zone>, used: nat, a': seq<Zone>, usedA: nat,
                                                 b': seq<Zone>, usedB: nat,
                                                 t: int, fid: nat, lba: nat, done: nat, skip: Option<nat>)
    requires Alike(a, b, used)
    requires SpaceValid(a', usedA) && SpaceValid(b', usedB)
    requires Placed(a, used, a', usedA, t, fid, lba, done, skip) && Placed(b, used, b', usedB, t, fid, lba, done, skip)
    ensures usedA == usedB && Alike(a', b', usedA)
  {
    hide SpaceValid, Needed, Log, Room, RoomOf, ToPlace;
    AlikeRoom(a, b, used, t);
    NeededIsExact(a, b, used, usedA, usedB, t, fid, lba, done, skip);
    forall u: int ensures Log(a', usedA, u) == Log(b', usedA, u) {
      AlikeLogs(a, b, used, u);
    }
    LogsDetermine(a', b', usedA, usedA);
  }
}
