/** Whole traces over the FluidSMR space (fluidsmr_parsing_csv in main.c). */
module FluidTrace {
  import opened Geometry
  import opened ZoneSlots
  import opened Requests
  import opened Runs
  import opened Ownership
  import opened FluidZones
  import opened FluidPlacement
  import opened FluidSpace

  /** A line of a FluidSMR trace: the usual four numbers and the zone type to write to. */
  datatype FluidRequest = FluidRequest(line: Request, hint: int)

  function Lba(r: FluidRequest): nat { FirstBlock(r.line.bytes) }

  function Blocks(r: FluidRequest): nat { BlockCount(r.line.bytes, r.line.numBytes) }

  // ----- one line --------------------------------------------------------------------------

  /** The space between two lines, who owns which track of the disk, and what reads were charged so far. */
  datatype Space = Space(zones: seq<Zone>, used: nat, rewritten: set<nat>, updates: nat, owners: Owners, readTotals: Totals)

  /** What the update scan of a line found, if it was a write. */
  datatype Hit = Hit(skip: Option<nat>, place: Option<Position>)

  /** A write that its guard admits goes as far as there is room of its type, and updates at most one address in place. */
  ghost predicate WriteStep(a: Space, b: Space, r: FluidRequest, o: Outcome, h: Hit)
    requires a.used <= |a.zones|
  {
    && Finds(a.zones, a.used, r.line.fid, Lba(r), Blocks(r), h.skip, h.place)
    && b.rewritten == a.rewritten + Turned(a.zones, h.place)
    && b.updates == a.updates + (if h.skip.Some? then 1 else 0) && b.readTotals == a.readTotals
    && (o.NeedsReclaim? <==> FreeBlocks(a.zones, a.used) < Blocks(r))
    && match o
       case NeedsReclaim => b.zones == a.zones && b.used == a.used
       case Served(left) =>
         var reach := Reach(Avail(a.zones, a.used, r.hint), Lba(r), Blocks(r), h.skip);
         && left == Blocks(r) - reach
         && Placed(a.zones, a.used, b.zones, b.used, r.hint, r.line.fid, Lba(r), reach, h.skip)
  }

  /** A read or delete reads from the zones what its sweep finds there, and a delete unmarks those zones. */
  ghost predicate SweepStep(a: Space, b: Space, r: FluidRequest)
    requires a.used <= |a.zones|
  {
    && b == a.(zones := if r.line.c == 3 then Swept(a.zones, a.used, Blocks(r), r.line.fid) else a.zones, readTotals := b.readTotals)
    && SweepCharged(a.owners, a.zones,
                    if r.line.c == 1 then ReadCounts(a.zones, a.used, r.line.fid, Lba(r), Blocks(r))
                    else if r.line.c == 3 then DeleteCounts(a.zones, a.used, Blocks(r), r.line.fid)
                    else [],
                    r.line.fid, a.readTotals, b.readTotals)
  }

  /** How a line moves the space. */
  ghost predicate Step(a: Space, b: Space, r: FluidRequest, o: Outcome, h: Hit) {
    && a.used <= |a.zones|
    && if r.line.c == 2 then WriteStep(a, b, r, o, h)
       else o == Served(0) && h == Hit(None, None) && SweepStep(a, b, r)
  }

  ghost function SpaceOf(s: FluidSmr): Space
    reads s, s.zones, s.disk, s.disk.ltp
  {
    Space(s.zones[..], s.usedZoneCount, s.rewritten, s.updates, s.disk.Owners(), s.disk.readTotals)
  }

  lemma {:induction false} SpaceIs(s: FluidSmr)
    ensures SpaceOf(s)
            == Space(s.zones[..], s.usedZoneCount, s.rewritten, s.updates, s.disk.Owners(), s.disk.readTotals)
  {
  }

  lemma {:induction false} WriteIsStep(a: Space, b: Space, r: FluidRequest, o: Outcome, h: Hit)
    requires a.used <= |a.zones| && r.line.c == 2
    requires Finds(a.zones, a.used, r.line.fid, Lba(r), Blocks(r), h.skip, h.place)
    requires b.rewritten == a.rewritten + Turned(a.zones, h.place)
    requires b.updates == a.updates + (if h.skip.Some? then 1 else 0) && b.readTotals == a.readTotals
    requires o.NeedsReclaim? <==> FreeBlocks(a.zones, a.used) < Blocks(r)
    requires o.NeedsReclaim? ==> b.zones == a.zones && b.used == a.used
    requires o.Served? ==>
               && o.left == Blocks(r) - Reach(Avail(a.zones, a.used, r.hint), Lba(r), Blocks(r), h.skip)
               && Placed(a.zones, a.used, b.zones, b.used, r.hint, r.line.fid, Lba(r), Blocks(r) - o.left, h.skip)
    ensures Step(a, b, r, o, h)
  {
  }

  lemma {:induction false} ReadIsStep(a: Space, b: Space, r: FluidRequest, totals: seq<Totals>)
    requires a.used <= |a.zones| && r.line.c == 1 && b == a.(readTotals := b.readTotals)
    requires ReadsZones(a.owners, a.zones, ReadCounts(a.zones, a.used, r.line.fid, Lba(r), Blocks(r)), r.line.fid, totals)
    requires totals[0] == a.readTotals && totals[a.used] == b.readTotals
    ensures Step(a, b, r, Served(0), Hit(None, None))
  {
    hide ReadsZones;
  }

  lemma {:induction false} DeleteIsStep(a: Space, b: Space, r: FluidRequest, totals: seq<Totals>)
    requires a.used <= |a.zones| && r.line.c == 3
    requires b == a.(zones := Swept(a.zones, a.used, Blocks(r), r.line.fid), readTotals := b.readTotals)
    requires ReadsZones(a.owners, a.zones, DeleteCounts(a.zones, a.used, Blocks(r), r.line.fid), r.line.fid, totals)
    requires totals[0] == a.readTotals && totals[a.used] == b.readTotals
    ensures Step(a, b, r, Served(0), Hit(None, None))
  {
    hide ReadsZones;
  }

  lemma {:induction false} OtherIsStep(a: Space, r: FluidRequest)
    requires a.used <= |a.zones| && r.line.c != 1 && r.line.c != 2 && r.line.c != 3
    ensures Step(a, a, r, Served(0), Hit(None, None))
  {
    NothingRead(a.owners, a.zones, r.line.fid, a.readTotals);
  }

  /** One line of the trace. */
  method Serve(s: FluidSmr, r: FluidRequest) returns (o: Outcome, ghost h: Hit)
    requires s.Valid()
    modifies s, s.zones, s.disk, s.disk.storage, s.disk.ltp, s.disk.band, s.disk.report
    ensures s.Valid() && Step(old(SpaceOf(s)), SpaceOf(s), r, o, h)
    ensures r.line.c != 2 ==> s.disk.Owners() == old(s.disk.Owners())
  {
    hide *;
    s.Parts();
    SpaceIs(s);
    ghost var a := SpaceOf(s);
    s.CountLine(r.line.c);
    var lba, n := Lba(r), Blocks(r);
    o, h := Served(0), Hit(None, None);
    if r.line.c == 1 {
      ghost var totals := s.Read(r.line.fid, lba, n);
      SpaceIs(s);
      ReadIsStep(a, SpaceOf(s), r, totals);
    } else if r.line.c == 2 {
      ghost var skip: Option<nat>, place: Option<Position>;
      o, skip, place := s.Write(r.line.fid, lba, n, r.hint);
      h := Hit(skip, place);
      SpaceIs(s);
      WriteIsStep(a, SpaceOf(s), r, o, h);
    } else if r.line.c == 3 {
      ghost var totals := s.Delete(r.line.fid, n);
      SpaceIs(s);
      DeleteIsStep(a, SpaceOf(s), r, totals);
    } else {
      SpaceIs(s);
      OtherIsStep(a, r);
    }
  }

  // ----- whole traces ----------------------------------------------------------------------

  /** The spaces before the first line and after each, and what the lines answered; only the last may ask for reclaiming. */
  ghost predicate Run(trace: seq<FluidRequest>, spaces: seq<Space>, outcomes: seq<Outcome>, hits: seq<Hit>) {
    && |spaces| == |outcomes| + 1 && |hits| == |outcomes| <= |trace|
    && (forall i :: 0 <= i < |spaces| ==>
          SpaceValid(spaces[i].zones, spaces[i].used) && SlotsOwned(spaces[i].zones, spaces[i].used, spaces[i].owners))
    && (forall i :: 0 <= i < |outcomes| ==> Step(spaces[i], spaces[i + 1], trace[i], outcomes[i], hits[i]))
    && (forall i :: 0 <= i < |outcomes| - 1 ==> outcomes[i].Served?)
  }

  /** A run ends at the end of its trace, or at the first write that asks for reclaiming. */
  ghost predicate Complete(trace: seq<FluidRequest>, outcomes: seq<Outcome>) {
    |outcomes| < |trace| ==> |outcomes| > 0 && outcomes[|outcomes| - 1].NeedsReclaim?
  }

  ghost predicate Fresh(a: Space) {
    a.used == 0 && a.rewritten == {} && a.updates == 0
  }

  /** The records line `i` placed, if it was a write that was served. */
  ghost function PlacedBy(trace: seq<FluidRequest>, outcomes: seq<Outcome>, hits: seq<Hit>, i: nat): seq<Record>
    requires i < |outcomes| == |hits| <= |trace|
  {
    if trace[i].line.c == 2 && outcomes[i].Served? && outcomes[i].left <= Blocks(trace[i])
    then ToPlace(trace[i].line.fid, Lba(trace[i]), Blocks(trace[i]) - outcomes[i].left, hits[i].skip)
    else []
  }

  /** What the first `k` lines placed in zones of type `t`, in order. */
  ghost function PlacedUpTo(trace: seq<FluidRequest>, outcomes: seq<Outcome>, hits: seq<Hit>, k: nat, t: int): seq<Record>
    requires k <= |outcomes| == |hits| <= |trace|
  {
    if k == 0 then []
    else if trace[k - 1].hint != t then PlacedUpTo(trace, outcomes, hits, k - 1, t)
    else PlacedUpTo(trace, outcomes, hits, k - 1, t) + PlacedBy(trace, outcomes, hits, k - 1)
  }

  lemma {:induction false} ExtendsIsConcat(a: seq<Record>, more: seq<Record>, b: seq<Record>)
    requires Extends(a, more, b)
    ensures b == a + more
  {
  }

  lemma {:induction false} SweepKeepsLog(zones: seq<Zone>, used: nat, n: nat, fid: nat, t: int)
    requires used <= |zones|
    ensures Log(Swept(zones, used, n, fid), used, t) == Log(zones, used, t)
  {
    LogAgree(zones, Swept(zones, used, n, fid), used, t);
  }

  lemma {:induction false} StepLogsHere(a: Space, b: Space, trace: seq<FluidRequest>, outcomes: seq<Outcome>, hits: seq<Hit>,
                                        i: nat, t: int)
    requires i < |outcomes| == |hits| <= |trace| && Step(a, b, trace[i], outcomes[i], hits[i])
    requires SpaceValid(a.zones, a.used) && SpaceValid(b.zones, b.used)
    ensures a.used <= |a.zones| && b.used <= |b.zones|
    ensures Log(b.zones, b.used, t)
            == if trace[i].hint == t then Log(a.zones, a.used, t) + PlacedBy(trace, outcomes, hits, i)
               else Log(a.zones, a.used, t)
  {
    hide SpaceValid, Finds, Turned, FreeBlocks, Avail, Reach, SweepCharged, Swept, Log, Needed, Advances;
    var r, records := trace[i], PlacedBy(trace, outcomes, hits, i);
    SpaceIsUsed(a);
    SpaceIsUsed(b);
    if r.line.c == 2 && outcomes[i].Served? {
      ReachIsBounded(Avail(a.zones, a.used, r.hint), Lba(r), Blocks(r), hits[i].skip);
      assert Grew(a.zones, a.used, b.zones, b.used, r.hint, records);
      if t == r.hint { ExtendsIsConcat(Log(a.zones, a.used, t), records, Log(b.zones, b.used, t)); }
    } else if r.line.c == 3 {
      SweepKeepsLog(a.zones, a.used, Blocks(r), r.line.fid, t);
    }
  }

  lemma {:induction false} SpaceIsUsed(a: Space)
    requires SpaceValid(a.zones, a.used)
    ensures a.used <= |a.zones|
  {
  }

  lemma {:induction false} ReachIsBounded(room: nat, lba: nat, n: nat, skip: Option<nat>)
    ensures Reach(room, lba, n, skip) <= n
  {
  }

  /** A line adds what it placed to the end of the log of its type, and leaves the other logs alone. */
  lemma {:induction false} StepLogs(trace: seq<FluidRequest>, spaces: seq<Space>, outcomes: seq<Outcome>, hits: seq<Hit>,
                                    i: nat, t: int)
    requires Run(trace, spaces, outcomes, hits) && i < |outcomes|
    ensures spaces[i].used <= |spaces[i].zones| && spaces[i + 1].used <= |spaces[i + 1].zones|
    ensures Log(spaces[i + 1].zones, spaces[i + 1].used, t)
            == if trace[i].hint == t then Log(spaces[i].zones, spaces[i].used, t) + PlacedBy(trace, outcomes, hits, i)
               else Log(spaces[i].zones, spaces[i].used, t)
  {
    hide Step, PlacedBy, SlotsOwned;
    StepLogsHere(spaces[i], spaces[i + 1], trace, outcomes, hits, i, t);
  }

  lemma {:induction false} NothingLogged(zones: seq<Zone>, t: int)
    ensures Log(zones, 0, t) == []
  {
  }

  /** The log of a type is what the served writes with that hint placed, in the order of the trace. */
  lemma {:induction false} LogsArePlaced(trace: seq<FluidRequest>, spaces: seq<Space>, outcomes: seq<Outcome>,
                                         hits: seq<Hit>, k: nat, t: int)
    requires Run(trace, spaces, outcomes, hits) && Fresh(spaces[0]) && k <= |outcomes|
    ensures spaces[k].used <= |spaces[k].zones|
    ensures Log(spaces[k].zones, spaces[k].used, t) == PlacedUpTo(trace, outcomes, hits, k, t)
  {
    hide Step, SpaceValid, PlacedBy, Log;
    if k == 0 {
      NothingLogged(spaces[0].zones, t);
    } else {
      LogsArePlaced(trace, spaces, outcomes, hits, k - 1, t);
      StepLogs(trace, spaces, outcomes, hits, k - 1, t);
    }
  }

  // ----- what never comes back -------------------------------------------------------------

  /** Every zone is in use and none of the type has room. */
  ghost predicate Full(a: Space, t: int) {
    a.used == |a.zones| && NoRoom(a.zones, a.used, t)
  }

  ghost predicate Lossy(r: FluidRequest, o: Outcome) {
    r.line.c == 2 && o.Served? && o.left > 0
  }

  lemma {:induction false} LossFills(a: Space, b: Space, r: FluidRequest, o: Outcome, h: Hit)
    requires Step(a, b, r, o, h) && Lossy(r, o)
    ensures Full(b, r.hint)
  {
    var reach := Reach(Avail(a.zones, a.used, r.hint), Lba(r), Blocks(r), h.skip);
    LossMeansFull(a.zones, a.used, b.zones, b.used, r.hint, r.line.fid, Lba(r), reach, Blocks(r), h.skip);
  }

  lemma {:induction false} FullStays(a: Space, b: Space, r: FluidRequest, o: Outcome, h: Hit, t: int)
    requires Step(a, b, r, o, h) && Full(a, t)
    ensures Full(b, t)
  {
    if r.line.c == 2 && o.Served? {
      assert Advances(a.zones, a.used, b.zones, b.used, r.hint);
    }
  }

  /** A write that found too little room leaves no room of its type for the rest of the trace. */
  lemma {:induction false} LossIsFinal(trace: seq<FluidRequest>, spaces: seq<Space>, outcomes: seq<Outcome>,
                                       hits: seq<Hit>, i: nat, k: nat)
    requires Run(trace, spaces, outcomes, hits) && i < k <= |outcomes| && Lossy(trace[i], outcomes[i])
    ensures Full(spaces[k], trace[i].hint)
  {
    if k == i + 1 {
      LossFills(spaces[i], spaces[k], trace[i], outcomes[i], hits[i]);
    } else {
      LossIsFinal(trace, spaces, outcomes, hits, i, k - 1);
      FullStays(spaces[k - 1], spaces[k], trace[k - 1], outcomes[k - 1], hits[k - 1], trace[i].hint);
    }
  }

  /** The bands rewritten after `k` lines are those that one of their updates in place turned RMW. */
  lemma {:induction false} RewrittenByHits(trace: seq<FluidRequest>, spaces: seq<Space>, outcomes: seq<Outcome>,
                                           hits: seq<Hit>, k: nat, b: nat)
    requires Run(trace, spaces, outcomes, hits) && Fresh(spaces[0]) && k <= |outcomes|
    ensures b in spaces[k].rewritten <==> exists i :: 0 <= i < k && b in Turned(spaces[i].zones, hits[i].place)
  {
    hide WriteStep, Turned, SpaceValid;
    if k > 0 {
      RewrittenByHits(trace, spaces, outcomes, hits, k - 1, b);
      StepTurns(spaces[k - 1], spaces[k], trace[k - 1], outcomes[k - 1], hits[k - 1]);
    }
  }

  lemma {:induction false} StepTurns(a: Space, b: Space, r: FluidRequest, o: Outcome, h: Hit)
    requires Step(a, b, r, o, h)
    ensures b.rewritten == a.rewritten + Turned(a.zones, h.place)
    ensures b.updates == a.updates + if h.skip.Some? then 1 else 0
  {
  }

  /** The lines among the first `k` that updated an address in place. */
  function Updating(hits: seq<Hit>, k: nat): nat
    requires k <= |hits|
  {
    if k == 0 then 0 else Updating(hits, k - 1) + if hits[k - 1].skip.Some? then 1 else 0
  }

  lemma {:induction false} UpdatesAreCounted(trace: seq<FluidRequest>, spaces: seq<Space>, outcomes: seq<Outcome>,
                                             hits: seq<Hit>, k: nat)
    requires Run(trace, spaces, outcomes, hits) && Fresh(spaces[0]) && k <= |outcomes|
    ensures spaces[k].updates == Updating(hits, k)
  {
    hide SpaceValid, SlotsOwned, Step;
    if k > 0 {
      UpdatesAreCounted(trace, spaces, outcomes, hits, k - 1);
      StepTurns(spaces[k - 1], spaces[k], trace[k - 1], outcomes[k - 1], hits[k - 1]);
    }
  }

  // ----- what is recorded ------------------------------------------------------------------

  /** The request writes the record. */
  ghost predicate Writes(r: FluidRequest, rec: Record) {
    r.line.c == 2 && rec.fid == r.line.fid && Lba(r) <= rec.lba < Lba(r) + Blocks(r)
  }

  /** A write that was served went this far. */
  ghost predicate Kept(zones: seq<Zone>, used: nat, r: FluidRequest, o: Outcome) {
    r.line.c == 2 && o.Served? ==> o.left <= Blocks(r) && AllRecorded(zones, used, r.line.fid, Lba(r), Blocks(r) - o.left)
  }

  /** A line forgets nothing, records what it went through, and adds nothing but what it writes. */
  lemma {:induction false} StepRecords(a: Space, b: Space, r: FluidRequest, o: Outcome, h: Hit)
    requires Step(a, b, r, o, h)
    ensures KeepsRecords(a.zones, a.used, b.zones, b.used) && Kept(b.zones, b.used, r, o)
    ensures forall rec :: Recorded(b.zones, b.used, rec) ==> Recorded(a.zones, a.used, rec) || Writes(r, rec)
  {
    hide Placed, Recorded, Finds, FirstAt, Swept, AllRecorded;
    if r.line.c == 2 && o.Served? {
      var reach := Blocks(r) - o.left;
      FoundSlot(a.zones, a.used, r.line.fid, Lba(r), Blocks(r), h.skip, h.place);
      PlacedIsRecorded(a.zones, a.used, b.zones, b.used, r.hint, r.line.fid, Lba(r), reach, h.skip);
      PlacedAddsOnly(a.zones, a.used, b.zones, b.used, r.hint, r.line.fid, Lba(r), reach, Blocks(r), h.skip);
    } else if r.line.c == 3 {
      SweepKeepsRecords(a.zones, a.used, a.used, Blocks(r), r.line.fid);
      SweepAddsNothing(a.zones, a.used, a.used, Blocks(r), r.line.fid, 0, 0, 0);
    }
  }

  lemma {:induction false} RecordsStay(trace: seq<FluidRequest>, spaces: seq<Space>, outcomes: seq<Outcome>,
                                       hits: seq<Hit>, j: nat, k: nat)
    requires Run(trace, spaces, outcomes, hits) && j <= k <= |outcomes|
    ensures KeepsRecords(spaces[j].zones, spaces[j].used, spaces[k].zones, spaces[k].used)
  {
    hide Step, Recorded, SpaceValid;
    if j < k {
      RecordsStay(trace, spaces, outcomes, hits, j, k - 1);
      StepRecords(spaces[k - 1], spaces[k], trace[k - 1], outcomes[k - 1], hits[k - 1]);
    }
  }

  /** Whatever a served write went through is still recorded at the end of a run. */
  lemma {:induction false} KeptToTheEnd(trace: seq<FluidRequest>, spaces: seq<Space>, outcomes: seq<Outcome>,
                                        hits: seq<Hit>, i: nat, k: nat)
    requires Run(trace, spaces, outcomes, hits) && i < k <= |outcomes|
    ensures Kept(spaces[k].zones, spaces[k].used, trace[i], outcomes[i])
  {
    hide Step, Recorded, SpaceValid;
    StepRecords(spaces[i], spaces[i + 1], trace[i], outcomes[i], hits[i]);
    RecordsStay(trace, spaces, outcomes, hits, i + 1, k);
  }

  /** Everything recorded was written by one of the lines so far. */
  lemma {:induction false} RecordedWasWritten(trace: seq<FluidRequest>, spaces: seq<Space>, outcomes: seq<Outcome>,
                                              hits: seq<Hit>,
                                              k: nat, rec: Record)
    requires Run(trace, spaces, outcomes, hits) && Fresh(spaces[0]) && k <= |outcomes|
    requires Recorded(spaces[k].zones, spaces[k].used, rec)
    ensures exists i :: 0 <= i < k && Writes(trace[i], rec)
  {
    hide Step, SpaceValid, HoldsAt;
    if k > 0 {
      StepRecords(spaces[k - 1], spaces[k], trace[k - 1], outcomes[k - 1], hits[k - 1]);
      if Recorded(spaces[k - 1].zones, spaces[k - 1].used, rec) {
        RecordedWasWritten(trace, spaces, outcomes, hits, k - 1, rec);
      } else {
        assert Writes(trace[k - 1], rec);
      }
    }
  }

  // ----- what is recorded, byte by byte ------------------------------------------------------

  /**
    A served write line went through a block: the block holds one of its bytes, and so does the block as far behind it
    as the number of blocks that were left over.
   */
  ghost predicate WentThrough(r: FluidRequest, o: Outcome, rec: Record) {
    && r.line.c == 2 && o.Served? && rec.fid == r.line.fid
    && HoldsByte(rec.lba, r.line.bytes, r.line.numBytes) && HoldsByte(rec.lba + o.left, r.line.bytes, r.line.numBytes)
  }

  lemma {:induction false} WentThroughRange(r: FluidRequest, o: Outcome, rec: Record)
    ensures WentThrough(r, o, rec)
            <==> r.line.c == 2 && o.Served? && rec.fid == r.line.fid && Lba(r) <= rec.lba && rec.lba + o.left < Lba(r) + Blocks(r)
  {
    ConversionIsExact(r.line.bytes, r.line.numBytes, rec.lba);
    if o.Served? { ConversionIsExact(r.line.bytes, r.line.numBytes, rec.lba + o.left); }
  }

  /** A line records exactly the blocks it went through, besides those that were recorded before. */
  lemma {:induction false} StepRecordsExactly(a: Space, b: Space, r: FluidRequest, o: Outcome, h: Hit, rec: Record)
    requires Step(a, b, r, o, h)
    ensures Recorded(b.zones, b.used, rec) <==> Recorded(a.zones, a.used, rec) || WentThrough(r, o, rec)
  {
    hide Placed, Recorded, Finds, FirstAt, Swept, HoldsByte;
    WentThroughRange(r, o, rec);
    StepRecords(a, b, r, o, h);
    if r.line.c == 2 && o.Served? {
      var reach := Blocks(r) - o.left;
      PlacedAddsOnly(a.zones, a.used, b.zones, b.used, r.hint, r.line.fid, Lba(r), reach, reach, h.skip);
    } else if r.line.c == 3 {
      SweepAddsNothing(a.zones, a.used, a.used, Blocks(r), r.line.fid, 0, 0, 0);
    }
  }

  /** What is recorded after `k` lines is exactly what served write lines among them went through. */
  lemma {:induction false} RecordedIsWentThrough(trace: seq<FluidRequest>, spaces: seq<Space>, outcomes: seq<Outcome>,
                                                 hits: seq<Hit>, k: nat, rec: Record)
    requires Run(trace, spaces, outcomes, hits) && Fresh(spaces[0]) && k <= |outcomes|
    ensures Recorded(spaces[k].zones, spaces[k].used, rec)
            <==> exists i :: 0 <= i < k && WentThrough(trace[i], outcomes[i], rec)
  {
    hide Step, SpaceValid, SlotsOwned, HoldsAt, WentThrough;
    if k > 0 {
      RecordedIsWentThrough(trace, spaces, outcomes, hits, k - 1, rec);
      StepRecordsExactly(spaces[k - 1], spaces[k], trace[k - 1], outcomes[k - 1], hits[k - 1], rec);
    }
  }

  /** A write line updates in place if and only if an earlier one of its file went through one of its blocks. */
  lemma {:induction false} HitMeansWrittenBefore(trace: seq<FluidRequest>, spaces: seq<Space>, outcomes: seq<Outcome>,
                                                 hits: seq<Hit>, k: nat)
    requires Run(trace, spaces, outcomes, hits) && Fresh(spaces[0]) && k < |outcomes| && trace[k].line.c == 2
    ensures hits[k].skip.Some?
            <==> exists i: nat, block: nat ::
                   i < k && HoldsByte(block, trace[k].line.bytes, trace[k].line.numBytes)
                   && WentThrough(trace[i], outcomes[i], Record(trace[k].line.fid, block))
  {
    hide WentThrough, Recorded, FirstAt, NoneRecorded, SpaceValid, SlotsOwned, HoldsByte, Placed, FreeBlocks, Avail;
    var a, r, h := spaces[k], trace[k], hits[k];
    assert Step(a, spaces[k + 1], r, outcomes[k], h);
    FoundSlot(a.zones, a.used, r.line.fid, Lba(r), Blocks(r), h.skip, h.place);
    if h.skip.Some? {
      var rec := Record(r.line.fid, h.skip.value);
      ConversionIsExact(r.line.bytes, r.line.numBytes, h.skip.value);
      RecordedIsWentThrough(trace, spaces, outcomes, hits, k, rec);
    }
    forall i: nat, block: nat
      | i < k && HoldsByte(block, r.line.bytes, r.line.numBytes) && WentThrough(trace[i], outcomes[i], Record(r.line.fid, block))
      ensures h.skip.Some?
    {
      ConversionIsExact(r.line.bytes, r.line.numBytes, block);
      RecordedIsWentThrough(trace, spaces, outcomes, hits, k, Record(r.line.fid, block));
      FindsIsFirst(a.zones, a.used, r.line.fid, Lba(r), Blocks(r), h.skip, h.place, block);
    }
  }

  /** It is the lowest such block that is updated, at the first slot, zone by zone, that names it. */
  lemma {:induction false} HitIsFirst(trace: seq<FluidRequest>, spaces: seq<Space>, outcomes: seq<Outcome>,
                                      hits: seq<Hit>, k: nat)
    requires Run(trace, spaces, outcomes, hits) && Fresh(spaces[0]) && k < |outcomes|
    requires trace[k].line.c == 2 && hits[k].skip.Some?
    ensures forall i: nat, block: nat ::
              i < k && HoldsByte(block, trace[k].line.bytes, trace[k].line.numBytes)
              && WentThrough(trace[i], outcomes[i], Record(trace[k].line.fid, block))
              ==> hits[k].skip.value <= block
    ensures hits[k].place.Some?
    ensures var p, zones, rec := hits[k].place.value, spaces[k].zones, Record(trace[k].line.fid, hits[k].skip.value);
      && p.zone < spaces[k].used <= |zones| && p.slot < zones[p.zone].writeHead <= |zones[p.zone].blocks|
      && zones[p.zone].blocks[p.slot].record == rec
      && (forall z: nat, j: nat :: (z < p.zone || (z == p.zone && j < p.slot)) && j < zones[z].writeHead <= |zones[z].blocks|
            ==> zones[z].blocks[j].record != rec)
  {
    hide WentThrough, Recorded, NoneRecorded, SlotsOwned, HoldsByte, Placed, FreeBlocks, Avail, ZoneValid, Laid, OnlyLastHasRoom;
    var a, r, h := spaces[k], trace[k], hits[k];
    assert Step(a, spaces[k + 1], r, outcomes[k], h);
    FoundSlot(a.zones, a.used, r.line.fid, Lba(r), Blocks(r), h.skip, h.place);
    forall i: nat, block: nat
      | i < k && HoldsByte(block, r.line.bytes, r.line.numBytes) && WentThrough(trace[i], outcomes[i], Record(r.line.fid, block))
      ensures h.skip.value <= block
    {
      ConversionIsExact(r.line.bytes, r.line.numBytes, block);
      RecordedIsWentThrough(trace, spaces, outcomes, hits, k, Record(r.line.fid, block));
      FindsIsFirst(a.zones, a.used, r.line.fid, Lba(r), Blocks(r), h.skip, h.place, block);
    }
    var p, rec := h.place.value, Record(r.line.fid, h.skip.value);
    forall z: nat, j: nat | (z < p.zone || (z == p.zone && j < p.slot)) && j < a.zones[z].writeHead <= |a.zones[z].blocks|
      ensures a.zones[z].blocks[j].record != rec
    {
      assert !HoldsAt(a.zones, z, j, rec);
    }
  }

  lemma {:induction false} PlacedUpToHas(trace: seq<FluidRequest>, outcomes: seq<Outcome>, hits: seq<Hit>, k: nat,
                                         t: int, rec: Record)
    requires k <= |outcomes| == |hits| <= |trace| && rec in PlacedUpTo(trace, outcomes, hits, k, t)
    ensures exists i :: 0 <= i < k && trace[i].hint == t && WentThrough(trace[i], outcomes[i], rec)
  {
    var r, o := trace[k - 1], outcomes[k - 1];
    if r.hint == t && rec in PlacedBy(trace, outcomes, hits, k - 1) {
      ToPlaceIsRange(r.line.fid, Lba(r), Blocks(r) - o.left, hits[k - 1].skip);
      WentThroughRange(r, o, rec);
    } else {
      PlacedUpToHas(trace, outcomes, hits, k - 1, t, rec);
    }
  }

  /** A slot of a zone names a block that a line with that zone type as its hint went through. */
  lemma {:induction false} SlotIsOfItsType(trace: seq<FluidRequest>, spaces: seq<Space>, outcomes: seq<Outcome>, hits: seq<Hit>,
                                           k: nat, z: nat, j: nat, rec: Record)
    requires Run(trace, spaces, outcomes, hits) && Fresh(spaces[0]) && k <= |outcomes|
    requires z < spaces[k].used && HoldsAt(spaces[k].zones, z, j, rec)
    ensures exists i :: 0 <= i < k && trace[i].hint == spaces[k].zones[z].zoneType && WentThrough(trace[i], outcomes[i], rec)
  {
    hide WentThrough, Step, SpaceValid, SlotsOwned, PlacedUpTo;
    var a := spaces[k];
    LogsArePlaced(trace, spaces, outcomes, hits, k, a.zones[z].zoneType);
    LogHoldsRecorded(a.zones, a.used, z, j, rec);
    PlacedUpToHas(trace, outcomes, hits, k, a.zones[z].zoneType, rec);
  }

  /**
    The zones record exactly the blocks that served write lines went through, each slot in a zone of the type that such a
    line asked for, and a line updates in place exactly if one of its blocks was recorded.
   */
  ghost predicate RecordsTrace(zones: seq<Zone>, used: nat, trace: seq<FluidRequest>, outcomes: seq<Outcome>, hits: seq<Hit>) {
    && |hits| == |outcomes| <= |trace|
    && (forall rec :: Recorded(zones, used, rec) <==> exists i :: 0 <= i < |outcomes| && WentThrough(trace[i], outcomes[i], rec))
    && (forall z: nat, j: nat, rec :: z < used && HoldsAt(zones, z, j, rec) ==>
          exists i :: 0 <= i < |outcomes| && trace[i].hint == zones[z].zoneType && WentThrough(trace[i], outcomes[i], rec))
    && (forall k :: 0 <= k < |outcomes| && trace[k].line.c == 2 ==>
          (hits[k].skip.Some?
           <==> exists i: nat, block: nat ::
                  i < k && HoldsByte(block, trace[k].line.bytes, trace[k].line.numBytes)
                  && WentThrough(trace[i], outcomes[i], Record(trace[k].line.fid, block))))
  }

  lemma {:induction false} RunRecordsTrace(trace: seq<FluidRequest>, spaces: seq<Space>, outcomes: seq<Outcome>, hits: seq<Hit>)
    requires Run(trace, spaces, outcomes, hits) && Fresh(spaces[0])
    ensures var end := spaces[|outcomes|]; RecordsTrace(end.zones, end.used, trace, outcomes, hits)
  {
    hide WentThrough, Step, SpaceValid, SlotsOwned, Recorded, Fresh, HoldsByte;
    var k := |outcomes|;
    var end := spaces[k];
    forall rec ensures Recorded(end.zones, end.used, rec) <==> exists i :: 0 <= i < k && WentThrough(trace[i], outcomes[i], rec) {
      RecordedIsWentThrough(trace, spaces, outcomes, hits, k, rec);
    }
    forall z: nat, j: nat, rec | z < end.used && HoldsAt(end.zones, z, j, rec)
      ensures exists i :: 0 <= i < k && trace[i].hint == end.zones[z].zoneType && WentThrough(trace[i], outcomes[i], rec)
    {
      SlotIsOfItsType(trace, spaces, outcomes, hits, k, z, j, rec);
    }
    forall i | 0 <= i < k && trace[i].line.c == 2
      ensures hits[i].skip.Some?
              <==> exists j: nat, block: nat ::
                     j < i && HoldsByte(block, trace[i].line.bytes, trace[i].line.numBytes)
                     && WentThrough(trace[j], outcomes[j], Record(trace[i].line.fid, block))
    {
      HitMeansWrittenBefore(trace, spaces, outcomes, hits, i);
    }
  }

  /** No file writes an address twice. */
  ghost predicate WriteOnce(trace: seq<FluidRequest>) {
    forall j, k, rec :: 0 <= j < k < |trace| && Writes(trace[j], rec) ==> !Writes(trace[k], rec)
  }

  /** Then no update scan ever finds anything. */
  lemma {:induction false} OnceMeansNoHit(trace: seq<FluidRequest>, spaces: seq<Space>, outcomes: seq<Outcome>,
                                          hits: seq<Hit>, k: nat)
    requires Run(trace, spaces, outcomes, hits) && Fresh(spaces[0]) && k < |outcomes| && WriteOnce(trace)
    ensures hits[k] == Hit(None, None)
  {
    hide Recorded, FirstAt, Placed, Turned, Swept, NoneRecorded;
    var a, r, h := spaces[k], trace[k], hits[k];
    assert Step(a, spaces[k + 1], r, outcomes[k], h);
    if r.line.c == 2 {
      FoundSlot(a.zones, a.used, r.line.fid, Lba(r), Blocks(r), h.skip, h.place);
      if h.skip.Some? {
        var rec := Record(r.line.fid, h.skip.value);
        assert Writes(r, rec);
        RecordedWasWritten(trace, spaces, outcomes, hits, k, rec);
      }
    }
  }

  lemma {:induction false} OnceTurnsNothing(trace: seq<FluidRequest>, spaces: seq<Space>, outcomes: seq<Outcome>,
                                            hits: seq<Hit>)
    requires Run(trace, spaces, outcomes, hits) && Fresh(spaces[0]) && WriteOnce(trace)
    ensures spaces[|outcomes|].rewritten == {}
  {
    hide Step, SpaceValid, WriteOnce;
    forall b: nat ensures b !in spaces[|outcomes|].rewritten {
      RewrittenByHits(trace, spaces, outcomes, hits, |outcomes|, b);
      forall i | 0 <= i < |outcomes| ensures b !in Turned(spaces[i].zones, hits[i].place) {
        OnceMeansNoHit(trace, spaces, outcomes, hits, i);
      }
    }
  }

  // ----- a loss ----------------------------------------------------------------------------

  /** A served write that no update scan stopped short goes as far as the room of its type, and opens what it needs for it. */
  lemma {:induction false} ServedUpToRoom(a: Space, b: Space, r: FluidRequest, o: Outcome)
    requires Step(a, b, r, o, Hit(None, None)) && r.line.c == 2 && o.Served?
    ensures a.used <= b.used <= |b.zones| == |a.zones|
    ensures var room := Avail(a.zones, a.used, r.hint);
      o.left == Blocks(r) - if Blocks(r) <= room then Blocks(r) else room
    ensures var done := Blocks(r) - o.left;
      && RoomOf(b.zones, b.used, r.hint) + done == Room(a.zones, a.used, b.used, r.hint)
      && (done > 0 && a.used < b.used ==> Room(a.zones, a.used, b.used - 1, r.hint) < done)
  {
    hide Grew;
    var done := Blocks(r) - o.left;
    ToPlaceIsRange(r.line.fid, Lba(r), done, None);
    if done > 0 { ToPlaceIsRange(r.line.fid, Lba(r), done - 1, None); }
  }

  /**
    The guard of a write looks at all free blocks, so it admits requests that find no room of their type: on a disk of
    1 GiB, after a conventional write of 170 blocks, one of 200 new blocks is served and loses 30 of them.
   */
  lemma {:induction false} GuardAdmitsLoss(trace: seq<FluidRequest>, spaces: seq<Space>, outcomes: seq<Outcome>, hits: seq<Hit>)
    requires Run(trace, spaces, outcomes, hits) && Fresh(spaces[0]) && Complete(trace, outcomes) && WriteOnce(trace)
    requires |spaces[0].zones| == 2 && |trace| == 2 && Blocks(trace[0]) == 170 && Blocks(trace[1]) == 200
    requires trace[0].line.c == trace[1].line.c == 2 && trace[0].hint == trace[1].hint == 0
    ensures outcomes == [Served(0), Served(30)]
  {
    hide Finds, Placed, Turned, WriteOnce, SpaceValid, Blocks;
    var a, b := spaces[0], spaces[1];
    OnceMeansNoHit(trace, spaces, outcomes, hits, 0);
    assert FreeBlocks(a.zones, 0) == 512;
    ServedUpToRoom(a, b, trace[0], outcomes[0]);
    assert b.used == 1;
    OnceMeansNoHit(trace, spaces, outcomes, hits, 1);
    assert FreeBlocks(b.zones, 1) >= 256;
    ServedUpToRoom(b, spaces[2], trace[1], outcomes[1]);
  }

  // ----- the trace leaves no choice --------------------------------------------------------

  /** Two spaces that no line of a trace can tell apart. */
  ghost predicate Equivalent(a: Space, b: Space) {
    && SpaceValid(a.zones, a.used) && SpaceValid(b.zones, b.used)
    && a.used == b.used && a.rewritten == b.rewritten && a.updates == b.updates && Alike(a.zones, b.zones, a.used)
  }

  lemma {:induction false} WriteIsDetermined(a: Space, a': Space, b: Space, b': Space, r: FluidRequest,
                                             o: Outcome, o': Outcome, h: Hit, h': Hit)
    requires Equivalent(a, b) && SpaceValid(a'.zones, a'.used) && SpaceValid(b'.zones, b'.used)
    requires a.used <= |a.zones| && b.used <= |b.zones| && WriteStep(a, a', r, o, h) && WriteStep(b, b', r, o', h')
    ensures o == o' && h == h' && Equivalent(a', b')
  {
    hide SpaceValid, Alike, Finds, Placed, Turned, RoomOf, FreeBlocks, Reach;
    AlikeFinds(a.zones, b.zones, a.used, r.line.fid, Lba(r), Blocks(r), h.skip, h.place);
    FindsIsDeterministic(b.zones, b.used, r.line.fid, Lba(r), Blocks(r), h.skip, h.place, h'.skip, h'.place);
    AlikeRoom(a.zones, b.zones, a.used, r.hint);
    TurnedAlike(a.zones, b.zones, a.used, r, h);
    if o.Served? {
      var reach := Reach(Avail(a.zones, a.used, r.hint), Lba(r), Blocks(r), h.skip);
      PlacedIsDeterministic(a.zones, b.zones, a.used, a'.zones, a'.used, b'.zones, b'.used, r.hint,
                            r.line.fid, Lba(r), reach, h.skip);
    }
  }

  lemma {:induction false} TurnedAlike(a: seq<Zone>, b: seq<Zone>, used: nat, r: FluidRequest, h: Hit)
    requires Alike(a, b, used) && Finds(a, used, r.line.fid, Lba(r), Blocks(r), h.skip, h.place)
    ensures Turned(a, h.place) == Turned(b, h.place) && |a| == |b|
  {
    AlikeRoom(a, b, used, 0);
  }

  lemma {:induction false} SweepIsDetermined(a: seq<Zone>, b: seq<Zone>, used: nat, n: nat, fid: nat)
    requires Alike(a, b, used)
    ensures Alike(Swept(a, used, n, fid), Swept(b, used, n, fid), used)
  {
  }

  /** The same line leaves equivalent spaces equivalent, and answers the same. */
  lemma {:induction false} StepIsDetermined(a: Space, a': Space, b: Space, b': Space, r: FluidRequest,
                                            o: Outcome, o': Outcome, h: Hit, h': Hit)
    requires Equivalent(a, b) && SpaceValid(a'.zones, a'.used) && SpaceValid(b'.zones, b'.used)
    requires Step(a, a', r, o, h) && Step(b, b', r, o', h')
    ensures o == o' && h == h' && Equivalent(a', b')
  {
    hide WriteStep, SpaceValid, Alike, Swept;
    if r.line.c == 2 {
      WriteIsDetermined(a, a', b, b', r, o, o', h, h');
    } else if r.line.c == 3 {
      SweepIsDetermined(a.zones, b.zones, a.used, Blocks(r), r.line.fid);
    }
  }

  /** So what a trace answers, updates and leaves in the zones follows from the trace and the size of the disk alone. */
  lemma {:induction false} RunIsDetermined(trace: seq<FluidRequest>, spacesA: seq<Space>, outcomesA: seq<Outcome>,
                                           hitsA: seq<Hit>,
                                           spacesB: seq<Space>, outcomesB: seq<Outcome>, hitsB: seq<Hit>, k: nat)
    requires Run(trace, spacesA, outcomesA, hitsA) && Run(trace, spacesB, outcomesB, hitsB)
    requires Fresh(spacesA[0]) && Fresh(spacesB[0]) && |spacesA[0].zones| == |spacesB[0].zones|
    requires k <= |outcomesA| && k <= |outcomesB|
    ensures Equivalent(spacesA[k], spacesB[k])
    ensures outcomesA[..k] == outcomesB[..k] && hitsA[..k] == hitsB[..k]
  {
    hide Step, SpaceValid;
    if k > 0 {
      RunIsDetermined(trace, spacesA, outcomesA, hitsA, spacesB, outcomesB, hitsB, k - 1);
      StepIsDetermined(spacesA[k - 1], spacesA[k], spacesB[k - 1], spacesB[k], trace[k - 1],
                       outcomesA[k - 1], outcomesB[k - 1], hitsA[k - 1], hitsB[k - 1]);
    }
  }

  lemma {:induction false} CompleteRunIsDetermined(trace: seq<FluidRequest>,
                                                   spacesA: seq<Space>, outcomesA: seq<Outcome>, hitsA: seq<Hit>,
                                                   spacesB: seq<Space>, outcomesB: seq<Outcome>, hitsB: seq<Hit>)
    requires Run(trace, spacesA, outcomesA, hitsA) && Run(trace, spacesB, outcomesB, hitsB)
    requires Fresh(spacesA[0]) && Fresh(spacesB[0]) && |spacesA[0].zones| == |spacesB[0].zones|
    requires Complete(trace, outcomesA) && Complete(trace, outcomesB)
    ensures outcomesA == outcomesB && hitsA == hitsB
    ensures Equivalent(spacesA[|outcomesA|], spacesB[|outcomesB|])
  {
    hide Step, SpaceValid, Equivalent, Fresh;
    var k := if |outcomesA| < |outcomesB| then |outcomesA| else |outcomesB|;
    RunIsDetermined(trace, spacesA, outcomesA, hitsA, spacesB, outcomesB, hitsB, k);
    if k > 0 { assert outcomesA[..k][k - 1] == outcomesB[..k][k - 1]; }
    assert |outcomesA| == |outcomesB| == k;
    assert outcomesA[..k] == outcomesA && outcomesB[..k] == outcomesB && hitsA[..k] == hitsA && hitsB[..k] == hitsB;
  }

  // ----- serving a trace -------------------------------------------------------------------

  lemma {:induction false} RunStarts(trace: seq<FluidRequest>, a: Space)
    requires SpaceValid(a.zones, a.used) && SlotsOwned(a.zones, a.used, a.owners)
    ensures Run(trace, [a], [], [])
  {
  }

  lemma {:induction false} RunGoesOn(trace: seq<FluidRequest>, spaces: seq<Space>, outcomes: seq<Outcome>, hits: seq<Hit>,
                                     b: Space, o: Outcome, h: Hit)
    requires Run(trace, spaces, outcomes, hits) && |outcomes| < |trace|
    requires SpaceValid(b.zones, b.used) && SlotsOwned(b.zones, b.used, b.owners)
    requires |outcomes| == 0 || outcomes[|outcomes| - 1].Served?
    requires Step(spaces[|outcomes|], b, trace[|outcomes|], o, h)
    ensures Run(trace, spaces + [b], outcomes + [o], hits + [h])
  {
    hide Step, SpaceValid, SlotsOwned;
  }

  /** A run that asked for reclaiming has less free space than the write needs. */
  lemma {:induction false} ReclaimIsNeeded(trace: seq<FluidRequest>, spaces: seq<Space>, outcomes: seq<Outcome>, hits: seq<Hit>)
    requires Run(trace, spaces, outcomes, hits) && |outcomes| > 0 && outcomes[|outcomes| - 1].NeedsReclaim?
    ensures var (end, last) := (spaces[|outcomes|], trace[|outcomes| - 1]);
      last.line.c == 2 && end.used <= |end.zones| && FreeBlocks(end.zones, end.used) < Blocks(last)
  {
    var k := |outcomes|;
    assert Step(spaces[k - 1], spaces[k], trace[k - 1], outcomes[k - 1], hits[k - 1]);
  }

  /** Everything a run that began on a fresh space brought about, told from its end. */
  ghost predicate Achieved(end: Space, trace: seq<FluidRequest>, spaces: seq<Space>, outcomes: seq<Outcome>, hits: seq<Hit>)
    requires |hits| == |outcomes| <= |trace| && |outcomes| < |spaces|
  {
    && end.used <= |end.zones|
    // the log of every type is what the served writes placed, in order
    && (forall t: int :: Log(end.zones, end.used, t) == PlacedUpTo(trace, outcomes, hits, |outcomes|, t))
    // something was left over only if no room of that type is left
    && (forall i :: 0 <= i < |outcomes| && Lossy(trace[i], outcomes[i]) ==> Full(end, trace[i].hint))
    // the rewritten bands are those that an update in place turned
    && (forall b: nat :: b in end.rewritten <==> exists i :: 0 <= i < |outcomes| && b in Turned(spaces[i].zones, hits[i].place))
    && end.updates == Updating(hits, |outcomes|)
    // what was placed is recorded, and nothing else
    && (forall i :: 0 <= i < |outcomes| ==> Kept(end.zones, end.used, trace[i], outcomes[i]))
    && (forall rec :: Recorded(end.zones, end.used, rec) ==> exists i :: 0 <= i < |outcomes| && Writes(trace[i], rec))
    && (|outcomes| > 0 && outcomes[|outcomes| - 1].NeedsReclaim?
        ==> FreeBlocks(end.zones, end.used) < Blocks(trace[|outcomes| - 1]))
    && (WriteOnce(trace) ==> end.rewritten == {})
  }

  lemma {:induction false} RunAchieves(trace: seq<FluidRequest>, spaces: seq<Space>, outcomes: seq<Outcome>, hits: seq<Hit>)
    requires Run(trace, spaces, outcomes, hits) && Fresh(spaces[0])
    ensures Achieved(spaces[|outcomes|], trace, spaces, outcomes, hits)
  {
    hide Step, SpaceValid, Log, Full, Lossy, Recorded, Kept, Writes, WriteOnce, Turned, PlacedUpTo, FreeBlocks;
    var k := |outcomes|;
    var end := spaces[k];
    LogsArePlaced(trace, spaces, outcomes, hits, k, 0);
    forall t: int ensures Log(end.zones, end.used, t) == PlacedUpTo(trace, outcomes, hits, k, t) {
      LogsArePlaced(trace, spaces, outcomes, hits, k, t);
    }
    forall i | 0 <= i < k && Lossy(trace[i], outcomes[i]) ensures Full(end, trace[i].hint) {
      LossIsFinal(trace, spaces, outcomes, hits, i, k);
    }
    forall b: nat ensures b in end.rewritten <==> exists i :: 0 <= i < k && b in Turned(spaces[i].zones, hits[i].place) {
      RewrittenByHits(trace, spaces, outcomes, hits, k, b);
    }
    UpdatesAreCounted(trace, spaces, outcomes, hits, k);
    forall i | 0 <= i < k ensures Kept(end.zones, end.used, trace[i], outcomes[i]) {
      KeptToTheEnd(trace, spaces, outcomes, hits, i, k);
    }
    forall rec | Recorded(end.zones, end.used, rec) ensures exists i :: 0 <= i < k && Writes(trace[i], rec) {
      RecordedWasWritten(trace, spaces, outcomes, hits, k, rec);
    }
    if k > 0 && outcomes[k - 1].NeedsReclaim? { ReclaimIsNeeded(trace, spaces, outcomes, hits); }
    if WriteOnce(trace) { OnceTurnsNothing(trace, spaces, outcomes, hits); }
  }

  lemma {:induction false} RunEnded(trace: seq<FluidRequest>, outcomes: seq<Outcome>)
    requires |outcomes| < |trace| ==> |outcomes| > 0 && outcomes[|outcomes| - 1].NeedsReclaim?
    ensures Complete(trace, outcomes)
  {
  }

  lemma {:induction false} FreshIs(a: Space)
    requires a.used == 0 && a.rewritten == {} && a.updates == 0
    ensures Fresh(a)
  {
  }

  /** More blocks than are free hold a byte of the line. */
  lemma {:induction false} LineIsTooLong(r: FluidRequest, room: nat)
    requires room < Blocks(r)
    ensures room < BlockCount(r.line.bytes, r.line.numBytes)
    ensures exists l: nat :: HoldsByte(l, r.line.bytes, r.line.numBytes) && HoldsByte(l + room, r.line.bytes, r.line.numBytes)
  {
    ConversionIsExact(r.line.bytes, r.line.numBytes, Lba(r));
    ConversionIsExact(r.line.bytes, r.line.numBytes, Lba(r) + room);
  }

  lemma {:induction false} SomeTurned(rewritten: set<nat>, spaces: seq<Space>, hits: seq<Hit>)
    requires |hits| < |spaces|
    requires forall b: nat :: b in rewritten <==> exists i :: 0 <= i < |hits| && b in Turned(spaces[i].zones, hits[i].place)
    ensures rewritten != {} <==> exists i :: 0 <= i < |hits| && Turned(spaces[i].zones, hits[i].place) != {}
  {
    hide Turned;
    if rewritten == {} {
      forall i | 0 <= i < |hits| ensures Turned(spaces[i].zones, hits[i].place) == {} {
        forall b: nat ensures b !in Turned(spaces[i].zones, hits[i].place) {
          assert b !in rewritten;
        }
      }
    } else {
      var b :| b in rewritten;
      var i :| 0 <= i < |hits| && b in Turned(spaces[i].zones, hits[i].place);
    }
  }

  /** On the disk under the space this decides flags, free space and charges. */
  lemma {:induction false} AchievedOnDisk(s: FluidSmr, trace: seq<FluidRequest>, spaces: seq<Space>,
                                          outcomes: seq<Outcome>, hits: seq<Hit>)
    requires s.Valid() && |hits| == |outcomes| <= |trace| && |outcomes| < |spaces|
    requires Achieved(SpaceOf(s), trace, spaces, outcomes, hits)
    ensures |outcomes| > 0 && outcomes[|outcomes| - 1].NeedsReclaim? ==>
              var last := trace[|outcomes| - 1].line;
              s.blockRemain < BlockCount(last.bytes, last.numBytes)
              && exists l: nat :: HoldsByte(l, last.bytes, last.numBytes) && HoldsByte(l + s.blockRemain, last.bytes, last.numBytes)
    ensures forall b: nat :: b < s.disk.band.Length ==>
              (s.disk.band[b].flagRMW <==> exists i :: 0 <= i < |outcomes| && b in Turned(spaces[i].zones, hits[i].place))
    ensures s.disk.report.writeSize == (|s.disk.Owners()| + Updating(hits, |outcomes|)) * TRACK_SIZE
    ensures s.disk.report.rewriteSize > 0 <==> exists i :: 0 <= i < |outcomes| && Turned(spaces[i].zones, hits[i].place) != {}
    ensures WriteOnce(trace) ==> s.disk.report.rewriteSize == s.disk.report.rereadSize == 0 == s.disk.writeTotals.virtualRuns
  {
    hide Run, Step, SpaceValid, Log, Full, Lossy, Recorded, Kept, Writes, WriteOnce, Turned, PlacedUpTo, FreeBlocks;
    hide HoldsByte, BlockCount, Blocks, Updating;
    s.Parts();
    CounterIsFree(s.zones[..], s.usedZoneCount, s.cmrBoundary, s.smrBoundary, s.cmrCount, s.smrCount, s.blockRemain);
    if |outcomes| > 0 && outcomes[|outcomes| - 1].NeedsReclaim? { LineIsTooLong(trace[|outcomes| - 1], s.blockRemain); }
    s.WritesAreAppendsAndUpdates();
    s.RewritesAreUpdates();
    SomeTurned(s.rewritten, spaces, hits);
  }

  /**
    A whole trace on a fresh disk of `size` GiB, up to the first write that would start reclaiming: step by step the
    space moves as the lines say. So the log of every zone type is what its writes placed, in order; a write that found
    too little room leaves none of its type; exactly the bands that an update in place turned are RMW at the end, and
    something was rewritten exactly if there is one. Every owned track was written once, and once more per update.
   */
  method ParsingCsv(size: nat, memory: (nat, nat) -> Slot, trace: seq<FluidRequest>)
    returns (s: FluidSmr, outcomes: seq<Outcome>, ghost spaces: seq<Space>, ghost hits: seq<Hit>)
    requires 0 < size && 512 * size <= UINT_RANGE
    ensures s.Valid() && s.zones.Length == s.disk.band.Length == 2 * size
    ensures Run(trace, spaces, outcomes, hits) && Fresh(spaces[0]) && |spaces[0].zones| == 2 * size
    ensures spaces[|outcomes|] == SpaceOf(s) && Achieved(SpaceOf(s), trace, spaces, outcomes, hits)
    ensures Complete(trace, outcomes)
    ensures RecordsTrace(s.zones[..], s.usedZoneCount, trace, outcomes, hits)
    ensures |outcomes| > 0 && outcomes[|outcomes| - 1].NeedsReclaim? ==>
              var last := trace[|outcomes| - 1].line;
              s.blockRemain < BlockCount(last.bytes, last.numBytes)
              && exists l: nat :: HoldsByte(l, last.bytes, last.numBytes) && HoldsByte(l + s.blockRemain, last.bytes, last.numBytes)
    ensures forall b: nat :: b < s.disk.band.Length ==>
              (s.disk.band[b].flagRMW <==> exists i :: 0 <= i < |outcomes| && b in Turned(spaces[i].zones, hits[i].place))
    ensures s.disk.report.writeSize == (|s.disk.Owners()| + Updating(hits, |outcomes|)) * TRACK_SIZE
    ensures s.disk.report.rewriteSize > 0 <==> exists i :: 0 <= i < |outcomes| && Turned(spaces[i].zones, hits[i].place) != {}
    ensures WriteOnce(trace) ==> s.disk.report.rewriteSize == s.disk.report.rereadSize == 0 == s.disk.writeTotals.virtualRuns
  {
    hide *;
    s := new FluidSmr(size, memory);
    s.Parts();
    SpaceIs(s);
    FreshIs(SpaceOf(s));
    BandsOwnSlots(s.zones[..], s.usedZoneCount, s.disk.band[..], s.disk.Owners());
    outcomes, spaces, hits := [], [SpaceOf(s)], [];
    RunStarts(trace, SpaceOf(s));
    while |outcomes| < |trace| && (|outcomes| == 0 || outcomes[|outcomes| - 1].Served?)
      invariant s.Valid() && fresh(s) && fresh(s.zones) && fresh(s.disk)
      invariant fresh(s.disk.storage) && fresh(s.disk.ltp) && fresh(s.disk.band) && fresh(s.disk.report)
      invariant s.zones.Length == 2 * size && |spaces| == |outcomes| + 1 && |hits| == |outcomes| <= |trace|
      invariant Run(trace, spaces, outcomes, hits) && Fresh(spaces[0]) && |spaces[0].zones| == 2 * size
      invariant spaces[|outcomes|] == SpaceOf(s)
      decreases |trace| - |outcomes|
    {
      ghost var h: Hit;
      var o: Outcome;
      o, h := Serve(s, trace[|outcomes|]);
      s.Parts();
      SpaceIs(s);
      BandsOwnSlots(s.zones[..], s.usedZoneCount, s.disk.band[..], s.disk.Owners());
      RunGoesOn(trace, spaces, outcomes, hits, SpaceOf(s), o, h);
      outcomes, spaces, hits := outcomes + [o], spaces + [SpaceOf(s)], hits + [h];
    }
    s.Parts();
    SpaceIs(s);
    RunAchieves(trace, spaces, outcomes, hits);
    RunRecordsTrace(trace, spaces, outcomes, hits);
    AchievedOnDisk(s, trace, spaces, outcomes, hits);
    RunEnded(trace, outcomes);
  }
}
