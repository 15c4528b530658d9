# A verified model of the SMR disk simulator

The repository simulates shingled (SMR) disks: traces of reads, writes and deletes run against a table of blocks, a
planner decides which tracks must be read back and rewritten around a shingled write, and counters collect sizes and
latencies. Two further disks put a journal of zones on top: the hybrid disk, whose journal is checkpointed, and the
FluidSMR disk, which hands out conventional and shingled zones from the two ends of the disk.

This project models the three of them in Dafny and proves what they promise over every request, every trace and
every build.

## Layout

| files | models |
|---|---|
| `Geometry`, `Requests` | sizes and latencies; lines of a trace, byte ranges to block ranges |
| `Ascending`, `Batch` | ascending scans over tracks; batch tables |
| `Bands` | bands, write heads, RMW windows and the planners |
| `Runs`, `Report` | the run detectors, what a run costs, the counters |
| `Ownership` | the disk as a map from addresses to owning files, and its laws |
| `DiskState`, `Disk`, `Trace` | the tables of the disk, the request pipeline, whole traces |
| `ZoneSlots`, `HybridZones`, `HybridJournal`, `RequestWindow` | the hybrid journal, its checkpoints, the hot/cold predictor |
| `FluidZones`, `FluidPlacement`, `FluidSpace`, `FluidTrace` | the FluidSMR zones, their agreement with the disk under them, whole traces |

Objects the program updates in place are classes (`Disk`, `Report`, `RequestWindow`, `HybridJournal`, `FluidSmr`);
their methods are proved against functions of the old state, and the lemmas are about those functions. The
compile-time flavours (CMR, NATIVE_A, FLUIDSMR) are the parameter `build` of `Disk`.

## Main results

* **The disk refines an owner map** (`SmrDisk.Disk.LbaWrite`, `LbaRead`, `LbaDelete`, `Trace.ParsingCsv`): through
  address table, block states, batch tables, planner and accounting, a write claims exactly the free and own
  addresses, a read counts the owned ones, a delete frees exactly the file. `Trace.ParsingCsv` also says it in terms of
  the bytes of every line. On the map, `Ownership.NoTheft` and `ReadYourWrites` hold for every trace.
* **Heads dominate** (`Bands.TouchAllDominated`, kept by `Disk.Valid`): no live track of a shingled band lies beyond
  its write head, so the scan to the head finds what a scan of the band would (`Bands.ScanToHeadIsScanOfBand`).
* **The planner lists every track once, except in NATIVE_A** (`Bands.PlanIsDuplicateFree`, `Bands.PlanCopies`), in an
  order that is fully characterised (`Bands.PlanIsBandByBand`, `Bands.FluidPlanIsEntryByEntry`). In
  NATIVE_A a track can be listed twice; `Bands.NativeARepeats` says exactly for which bands and requests,
  `Bands.NativeACanRepeat` gets there from a fresh band.
* **The one-pass run detector is the declarative split** (`Runs.DetectRuns`, `Runs.RunSplitIsUnique`), what it charges
  follows from the runs (`Runs.TallyOfSplit`) and from the addresses (`SmrDisk.WriteChargesExactly`), and the counters
  satisfy exact identities at every moment of every trace (`Disk.SizesAreConserved`, `BlocksAreConserved`,
  `TimeIsConserved`).
* **No journal record is lost** (`HybridJournaling.ParsingCsv`), read off the log of disk commands alone: every block that
  holds a byte of a write line is journaled for it once, in a zone of the type the predictor chose, and goes home by a
  command issued after that write, also when its request is split by a checkpoint. The placement loop ends
  (`HybridJournal.CommitRound`) unless the journal has no zone at all.
* **FluidSMR placement** (`FluidSpace.FluidSmr.Write`): a request is appended in order to the log of its zone type, less
  the one address updated in place, and what is left over is exactly what there was no room for
  (`FluidZones.PlacementIsExact`), which the guard does not prevent (`FluidTrace.GuardAdmitsLoss`). Free space is exact
  (`FreeSpaceIsExact`) and the two ends never cross (`EndsNeverCross`).
* **FluidSMR traces** (`FluidTrace.ParsingCsv`): over every trace exactly the blocks that served lines went through are
  recorded, told from the bytes of the lines, and the logs are in their order; a band is RMW exactly if some update in
  place hit a slot its shingled zone had written past, and a rewrite is charged exactly if there is such an update, so
  never when no file writes an address twice; every owned track is written once, and once more per update. The steps
  leave no choice (`FluidTrace.CompleteRunIsDetermined`): what goes where follows from the trace and the size of the disk.

## Model

| member | source | states |
|---|---|---|
| `Requests.ConversionIsExact` | main.c:53-70 | the blocks of a request are exactly the blocks that hold one of its bytes, and there are none exactly for empty requests |
| `Bands.TouchAllEffect` | src/batch.c:181-205 | after an ascending batch a band's head is the maximum of old head and batch, the band is RMW exactly if it was or a track lies below the old head, and the window ends at the largest batch track |
| `Bands.TouchAllWellPlaced` | src/batch.c:181-205 | heads and windows stay inside their bands, and no head moves back |
| `Bands.TouchAllDominated` | src/batch.c:181-205 | if no live track lies beyond its band's head before a batch, none does after it, the batch included |
| `Bands.LiveBatchKeepsHeads` | src/batch.c:456-463 | planning a batch of live tracks, as a delete does, moves no head of a shingled band |
| `Bands.PlanIsDuplicateFree` | src/batch.c:206-225 | without NATIVE_A the planned list is the sorted batch, then one ascending scan of the live tracks past the windows; it lists no track twice and at most as many as the disk has |
| `Bands.ScanToHeadIsScanOfBand` | src/batch.c:217-222 | scanning to the write head finds the same live tracks as scanning to the end of the band |
| `Bands.PlanCopies` | src/batch.c:206-225 | in every native build a track is listed once for the batch, once past a window, and in NATIVE_A once before a window |
| `Bands.NativeARepeats` | src/batch.c:181-225 | NATIVE_A lists a track twice if and only if it is live, its band was RMW before the request, it lies before the window, and it is in the batch itself or the window will end before it |
| `Bands.NativeACanRepeat` | src/batch.c:181-225 | it happens: from a band as init_band leaves it, after tracks 3, 5 and 9 and then 5 again were written, a write of track 3 lists it twice |
| `Bands.PlanIsBandByBand` | src/batch.c:206-225 | the list is the batch in its order, then band by band the live tracks to rewrite; in a flagged band NATIVE_A puts those before the window first; both parts ascend and are complete |
| `Bands.FluidPlanIsEntryByEntry` | src/batch.c:290-348 | the FluidSMR list is every batch entry in order, each followed by one complete ascending scan of the live tracks that lie past a window by then |
| `Bands.PlanLength` | src/batch.c:206-225 | the list is as long as the batch, the live tracks past the windows and, in NATIVE_A, those before them |
| `Bands.PlanPhysicalCount` | src/batch.c:165-227 | whatever the planner adds is virtual: the physical entries are the batch |
| `Bands.FluidPlanPhysicalCount` | src/batch.c:290-348 | the same for the FluidSMR planner, although its scan runs once per entry |
| `Bands.FreshBatchKeepsFlags` | src/batch.c:300-328 | in the FluidSMR planner, tracks at or past their band's head turn no band RMW |
| `Bands.FreshFluidPlanIsPhysical` | src/batch.c:290-348 | while no band is RMW, such a batch is planned as its own tracks and nothing else |
| `Bands.RewrittenTrackHasTail` | src/batch.c:290-348 | a track below the head of its shingled band is never planned alone while the track at the head is live |
| `Batch.SortByPba` | src/batch.c:401-409 | sorting a batch orders it by track and keeps its entries |
| `Runs.SplitRunsIsRunSplit` | src/record_op.c:59-103 | cutting a list step by step yields maximal consecutive runs that flatten back to the list |
| `Runs.RunSplitIsUnique` | src/record_op.c:59-103 | there is only one way to cut a list into maximal consecutive runs |
| `Runs.DetectRuns` | src/record_op.c:59-103 | the one-pass loop of writes and deletes charges exactly the runs of the declarative split |
| `Runs.DetectPhysicalRuns` | src/record_op.c:7-31 | the loop of reads and of the CMR build charges the runs of a physical list |
| `Runs.TallyIsLawful` | src/record_op.c:185-247 | any sum of run costs has one seek per physical and three per virtual run, passes re-read tracks twice more, and rewrites no more than it re-reads |
| `Runs.WriteIsPhysicalSize` | src/record_op.c:185-231 | the tracks charged as written are the physical entries of the planned list and those charged as rewritten all the others, however the list falls into runs |
| `Runs.TallyOfSplit` | src/record_op.c:185-247 | into whatever maximal consecutive runs a list falls: exactly the runs with a virtual entry are re-read, as a whole, and cost three seeks, the others one; the head passes every track once and every re-read track twice more |
| `Runs.OneRunTally` | src/record_op.c:59-103 | consecutive physical tracks cost one seek and one pass |
| `Reporting.Report.ChargeRead` | src/record_op.c:196-204 | after a read the time and size counters are those of all reads charged so far |
| `Reporting.Report.ChargeWrite` | src/record_op.c:185-231 | after a write the write time, written, rewritten and re-read bytes are those of all writes charged so far |
| `Reporting.Report.ChargeDelete` | src/record_op.c:206-247 | the same for deletes |
| `Reporting.LawfulSizes` | src/record_op.c:215-247 | rewritten bytes are at most the re-read ones, which are at most the rewritten and the written ones |
| `Reporting.LawfulLatency` | src/record_op.c:185-247 | time is rotation and transfer per passed track plus seeks, in terms of the size counters and the run counts |
| `Ownership.OwnershipIsStable` | src/lba.c:245-304 | over every trace a block stays with its file until that file is deleted |
| `Ownership.NoTheft` | src/lba.c:245-304 | if a block ends up elsewhere, the trace holds a delete of its file |
| `Ownership.ReadCountsOwn` | src/lba.c:218-243 | a read on the disk counts exactly the addresses of its range its file owns, and nothing if there is none |
| `Ownership.ReadIgnoresOthers` | src/lba.c:184-190 | what other files own makes no difference to a read |
| `Ownership.StrangersReadNothing` | src/lba.c:218-243 | on a disk that started empty, a file that never wrote reads nothing |
| `Ownership.WriteClaimsExactly` | src/lba.c:251-279 | a write on the disk gives its file every free address of the range, leaves every other owner, and counts the free and own ones; off the disk it does nothing |
| `Ownership.DeleteReleasesExactly` | src/lba.c:281-304 | a delete takes every address of its file and no other, and counts them |
| `Ownership.ReadYourWrites` | src/lba.c:218-279 | after a write, any trace without a delete of the file and a read, at least as many blocks are read back as were accepted |
| `Ownership.DeleteFreesExactly` | src/lba.c:281-304 | a delete leaves the file nothing, other files everything, and its blocks free for any file |
| `Ownership.OwnersStayInRange` | src/lba.c:255-258 | owned addresses lie on the disk after every trace |
| `DiskState.WriteRefinesClaim` | src/lba.c:260-278 | linking the claimable addresses and writing their blocks is claiming them in the owner map |
| `DiskState.EraseRefinesRelease` | src/chs.c:24-38 | invalidating the blocks of a file is releasing it in the owner map |
| `DiskState.LiveIsOwned` | include/lba.h:93-95 | between requests the blocks in use are exactly the owned addresses, and none is merely booked |
| `DiskState.StoredPbaIsExact` | src/pba.c:81-85 | the 32-bit parameter keeps every address of a disk exactly when the disk has at most 2^32 blocks |
| `DiskState.FirstWriteIsReadBack` | src/pba.c:81-120 | the request that fails beyond that: a block that a fresh disk accepted is read back if and only if its address is below 2^32 |
| `SmrDisk.Disk.constructor` | src/lba.c:22-156 | a new disk has 512 blocks and two bands per GiB, owns nothing, and is valid |
| `SmrDisk.Disk.InitBand` | src/band.c:9-49 | every band starts shingled, not RMW, its head at its first track |
| `SmrDisk.Disk.PbaSearch` | src/pba.c:112-120 | an address maps to itself afterwards, valid and owned by the file, its block booked unless it was in use |
| `SmrDisk.Disk.ChsWrite` | src/chs.c:14-22 | a block comes into use, is counted once when it does, and its write count grows by one |
| `SmrDisk.Disk.ChsDelete` | src/chs.c:24-38 | a block becomes invalid and its address loses its mapping |
| `SmrDisk.Disk.PbaWrite` | src/pba.c:53-64 | every block of the batch is written once; write counts, blocks in use and block bytes grow accordingly |
| `SmrDisk.Disk.PbaDelete` | src/pba.c:66-75 | every block of the batch is invalidated; no write count changes |
| `SmrDisk.Disk.PbaRead` | src/pba.c:44-51 | the block bytes grow by the size of the batch |
| `SmrDisk.Disk.BatchSync` | src/batch.c:401-409 | the batch is sorted in place; an empty one is reported |
| `SmrDisk.Disk.TouchBand` | src/batch.c:182-204 | one entry moves head, flag and window of its band only |
| `SmrDisk.Disk.AddLive` | src/batch.c:217-222 | a scan appends exactly the live tracks of its range, as virtual entries |
| `SmrDisk.Disk.BatchExtend` | src/batch.c:165-227 | bands and extended list are those of the planner's specification |
| `SmrDisk.Disk.BatchExtendFluid` | src/batch.c:290-348 | the same for the FluidSMR planner |
| `SmrDisk.Disk.RecordRead` | src/record_op.c:7-31 | the runs of the batch are added to the read totals, and the counters still agree with them |
| `SmrDisk.Disk.RecordWrite` | src/record_op.c:59-103 | the runs of the planned list are added to the write totals, and the counters still agree with them |
| `SmrDisk.Disk.RecordDelete` | src/record_op.c:136-182 | the same for deletes |
| `SmrDisk.Disk.BatchRead` | src/batch.c:412-431 | a read batch is charged by its runs and leaves the tables empty |
| `SmrDisk.Disk.BatchWrite` | src/batch.c:433-454 | sorting, planning, writing and charging a batch: new bands, new blocks, new totals, empty tables, books in balance |
| `SmrDisk.Disk.BatchDelete` | src/batch.c:456-463 | the same for a delete, which is charged before its blocks are invalidated |
| `SmrDisk.Disk.LbaRead` | src/lba.c:218-243 | counts exactly the addresses of the range the file owns, charges their runs, refuses ranges off the disk, and changes no owner |
| `SmrDisk.Disk.LbaWrite` | src/lba.c:251-279 | claims exactly the free and own addresses, reports how many, moves bands and charges runs as planned, and keeps the disk valid |
| `SmrDisk.Disk.LbaDelete` | src/lba.c:281-304 | removes exactly the blocks of the file, whatever the range, reports how many, and keeps the disk valid |
| `SmrDisk.WriteMovesExactly` | src/batch.c:181-205 | a write moves head, flag and window of a band by exactly the free and own addresses of its range in it, except in the CMR build and in conventional bands of the FluidSMR build |
| `SmrDisk.DeleteMovesExactly` | src/batch.c:456-463 | a delete moves them by exactly the tracks of its file, in every build |
| `SmrDisk.WriteChargesExactly` | src/record_op.c:59-103 | a write is charged each free or own address of its range once, and in the native builds the live tracks past the windows, in NATIVE_A also those before them, once as rewritten; the CMR build rewrites nothing |
| `SmrDisk.DeleteChargesExactly` | src/record_op.c:136-182 | the same for a delete and the tracks of its file |
| `SmrDisk.ReadChargesExactly` | src/record_op.c:7-31 | a read is charged each own address of its range once, and nothing for others |
| `SmrDisk.Disk.SizesAreConserved` | src/record_op.c:185-247 | written bytes equal block bytes equal the track size times all write counts; every byte counter is the track size times the tracks charged for it; rewritten <= re-read <= rewritten + written |
| `SmrDisk.Disk.BlocksAreConserved` | src/chs.c:14-38 | blocks that ever came into use are in use now or were deleted, and those in use are exactly the owned ones |
| `SmrDisk.Disk.TimeIsConserved` | src/record_op.c:185-247 | access time is read, write and delete time, and each of the three follows from the sizes and the number of runs |
| `SmrDisk.Disk.SetFlagCMR` | main.c:2124-2132 | a band changes kind and nothing else; the disk stays valid |
| `SmrDisk.Disk.CountLine` | main.c:51-88 | one instruction, and one of its kind, is counted |
| `Trace.WriteAdvancesHeads` | src/batch.c:181-205 | no write moves a head back, in any build |
| `Trace.DeleteAdvancesHeads` | src/batch.c:456-463 | no delete moves a head back |
| `Trace.DeleteKeepsHeads` | src/batch.c:456-463 | a delete leaves the head of every shingled band where it was |
| `Trace.Serve` | main.c:74-95 | one line of a trace is one step of the owner map, with its result, and one step of bands and totals: reads move the read totals, writes and deletes the bands and their own totals, by the runs of the planned list |
| `Trace.DecodingIsFaithful` | main.c:51-95 | what a decoded line does is what its bytes mean: a read counts the blocks holding its bytes that its file owns, a write takes the free ones and counts those and its own, a delete takes all blocks of the file |
| `Trace.WrittenBytesAreRead` | main.c:74-90 | a line that reads the bytes of an earlier write line gets at least what that line got accepted, unless the file is deleted in between |
| `Trace.UnwrittenFilesReadNothing` | main.c:74-90 | on a disk that started empty, a line reads nothing for a file no earlier line wrote for |
| `Trace.AccountsAreDetermined` | src/record_op.c:185-247 | what a trace is charged and how it moves the bands follows from its requests and what was there before |
| `Trace.ShingledMeansBelow` | src/batch.c:181-205 | on bands that all started shingled, heads that only advance and dominance put every live track at or below its head |
| `Trace.ParsingCsv` | main.c:23-113 | for every trace and build, line by line, owners and results are what the bytes of the lines mean and those of the owner map; bands and totals are those of the step-by-step accounts; heads only advance, bands keep their kind, and on a shingled disk no owned track ever lies beyond its head |
| `HotColdPredictor.WindowSlides` | src/Hybrid.c:57-67 | in a full window the oldest size leaves and the new one enters, and the running sum never goes below zero |
| `HotColdPredictor.VerdictIsMean` | src/Hybrid.c:60-69 | the specification of the answer is that comparison with the mean |
| `HotColdPredictor.RequestWindow.DetermineCommitType` | src/Hybrid.c:44-70 | the ring buffer holds the last 1000 sizes; the answer is 1 exactly for sizes that reach the initial bound in the first 1000 calls, and the mean of the 1000 sizes before, rounded down, in later ones |
| `HybridZones.AppendKeepsRecords` | main.c:837-882 | an append keeps every record of the journal and adds the new ones in order |
| `HybridZones.AppendLosesNothing` | main.c:837-882 | if every journaled record is still in the journal or went home since, that is so after an append, for the new records too |
| `HybridZones.AppendKeepsTiling` | main.c:880-881 | an append lands right behind what its zone got since the last checkpoint, and so did every append before it |
| `HybridZones.TilesCover` | main.c:880-881 | such extents cover every track below the head exactly once and none beyond it |
| `HybridZones.CheckpointSendsHome` | src/Hybrid.c:27-35 | a checkpoint writes every slot of every zone it visits home |
| `HybridZones.CheckpointIsDisciplined` | src/Hybrid.c:29-34 | every home write puts back the one record that the command before it read |
| `HybridZones.CheckpointLosesNothing` | src/Hybrid.c:25-42 | after a checkpoint of all online zones every record a journal write carried went home by a write issued after it |
| `HybridZones.CheckpointEmptiesJournal` | src/Hybrid.c:36-40 | and the journal is empty and valid, and what the log comes to is unchanged |
| `HybridJournaling.HybridJournal.constructor` | main.c:696-718 | all zones offline on their own bands, a tenth of the bands as limit, an empty predictor |
| `HybridJournaling.HybridJournal.FillSlots` | main.c:844-878 | a zone takes as many records, in order, as it has unsealed slots; it is full only at capacity |
| `HybridJournaling.HybridJournal.FillZone` | main.c:844-881 | records, extent and head of an append agree, the log comes to those records for the type of the zone, in order, and nothing is lost |
| `HybridJournaling.HybridJournal.FillPass` | main.c:833-887 | only matching zones change; the log comes to the records placed; what is left over finds no matching room; with matching room something is placed |
| `HybridJournaling.HybridJournal.OpenZone` | main.c:889-914 | the first offline zone, which is the one after the online prefix, goes online empty with the slots of its type |
| `HybridJournaling.HybridJournal.DoCheckpoint` | src/Hybrid.c:25-42 | everything goes home, all zones go offline, the count drops by the limit and is zero when the limit was reached |
| `HybridJournaling.FinalCountWraps` | main.c:956 | the final checkpoint leaves the unsigned count at zero only if the limit was reached, and wraps otherwise |
| `HybridJournaling.HybridJournal.CommitRound` | main.c:827-920 | a round places records or lowers the rank (room, zone to open, checkpoint needed); it checkpoints only when records are left over and every zone is online; with limit 0 it changes nothing |
| `HybridJournaling.HybridJournal.Commit` | main.c:824-924 | the placement loop ends when the limit is at least 1, and the log comes to every record of the request once and in order, for the given type |
| `HybridJournaling.HybridJournal.Serve` | main.c:774-934 | the commands a line adds are what its bytes mean: a read or delete of exactly their blocks; or journal writes that carry exactly their blocks, each once and in order, for the zone type the predictor answers |
| `HybridJournaling.BlockIsJournaled` | main.c:824-882 | every block that holds a byte of a write line is journaled for its file |
| `HybridJournaling.CarriedIsWritten` | main.c:824-882 | every journaled record is a block that holds a byte of a write line of its file |
| `HybridJournaling.ParsingCsv` | main.c:684-958 | over every trace the log of commands falls into one stretch per line, each as the bytes of the line mean, and a rest of checkpoint commands; the journaled records are exactly the written blocks; each journal write lands right behind what its zone got since the last checkpoint, inside the journal area; each record is read back and written home by commands issued after its journal write |
| `FluidZones.BandsAreDistinct` | main.c:2117-2134 | no two zones share a band, from whichever end they were taken |
| `FluidZones.EveryOuterBandHoldsAZone` | main.c:2117-2134 | every band below the conventional or above the shingled boundary holds a zone of that kind |
| `FluidZones.ToPlaceIsRange` | main.c:2069-2086 | what a request places is its range in order, less the updated address |
| `FluidZones.AppendGrows` | main.c:2062-2095 | an append adds its records to the end of the log of the zone's type and leaves the other logs alone |
| `FluidZones.OpenKeepsSpace` | main.c:2105-2134 | opening a zone when its type has no room keeps the space valid and every log unchanged |
| `FluidZones.PlacementIsExact` | main.c:2054-2173 | a placement goes through exactly as many addresses as the free slots of the type and its capacity per spare zone allow; the updated address costs none if it comes while there is room |
| `FluidZones.LossMeansFull` | main.c:2056-2173 | if that is not the whole request, every zone is in use and none of the type has room |
| `FluidZones.FindsIsDeterministic` | main.c:1371-1448 | the first recorded address of a request and its first slot are unique |
| `FluidZones.PlacedIsRecorded` | main.c:2054-2173 | a placement forgets no record, and records every address it went through |
| `FluidZones.PlacedAddsOnly` | main.c:2054-2173 | and records nothing else |
| `FluidZones.SweepKeepsRecords` | main.c:2194-2223 | a delete forgets no record |
| `FluidZones.ReadStops` | main.c:1350-1361 | once the counter of a read is zero its range is empty, so leaving the loop there skips nothing |
| `FluidZones.RangeIsCounted` | main.c:1340-1350 | a read counts the written slots of a zone that name its file and an address of its range |
| `FluidZones.FileIsCounted` | main.c:2199-2209 | a delete counts the written slots that name its file |
| `FluidZones.ReadMissesExactly` | main.c:1335-1363 | a read finds all that a zone holds of its range if and only if none of it lies past the end its counter leaves, since what earlier zones held is taken off the end of the range |
| `FluidZones.LogsDetermine` | main.c:2062-2173 | since only the last zone of a type has room, the logs determine what every zone holds |
| `FluidPlacement.FreshExtent` | src/batch.c:290-348 | an extent on free tracks at or past the head turns no band RMW, moves its own shingled band to its last track and no other, and while no band is RMW costs one run |
| `FluidPlacement.AppendKeepsBands` | main.c:2094-2097 | after an append the disk owns exactly the tracks below the heads of the zones, each for the file of its slot, and the head of a shingled band is the last track its zone has written |
| `FluidPlacement.OpenKeepsBands` | main.c:2117-2134 | opening a zone takes a spare band and keeps that agreement |
| `FluidPlacement.UpdateStep` | main.c:1400-1443 | an update in place changes no owner and no head, and makes its band RMW exactly if its zone is shingled and the slot is not the last one written |
| `FluidPlacement.TracksAddUp` | main.c:1273-1292 | every track of the disk is owned, sealed for a conventional zone, or free |
| `FluidSpace.FluidSmr.constructor` | main.c:1273-1292 | a fresh space: no zone in use, all blocks free, boundaries at the two ends |
| `FluidSpace.FluidSmr.FillSlots` | main.c:2062-2092 | records go to the next unsealed slots in order, the updated address is passed over while there is room, and a zone is full only at capacity |
| `FluidSpace.FluidSmr.WriteExtent` | main.c:2094 | the disk accepts the whole extent, the head of its band moves to its last track, no other band moves, no band turns RMW |
| `FluidSpace.FluidSmr.FillZone` | main.c:2060-2097 | slots, disk, head and free-space counter agree after an append |
| `FluidSpace.FluidSmr.SealTail` | main.c:2116-2121 | a conventional zone seals its last 86 slots, and each costs one free block |
| `FluidSpace.FluidSmr.StartZone` | main.c:2107-2134 | type, seals, position, band flag, counts and boundaries of a newly opened zone |
| `FluidSpace.FluidSmr.OpenZone` | main.c:2105-2134 | opening a zone keeps zones, counters, bands and owners in agreement |
| `FluidSpace.FluidSmr.FillUsed` | main.c:2056-2103 | the first loop appends in order, and leaves something over only if no zone in use has room |
| `FluidSpace.FluidSmr.FillNew` | main.c:2105-2173 | the second loop ends, opens exactly the zones the request needs, appends in order, and leaves something over only if all zones are in use |
| `FluidSpace.FluidSmr.Place` | main.c:2054-2173 | both together |
| `FluidSpace.FluidSmr.FindUpdate` | main.c:1371-1448 | finds the first address of the request that is recorded for the file, at its first slot, or none |
| `FluidSpace.FluidSmr.UpdateInPlace` | main.c:1410-1413 | no owner and no head changes, and the set of rewritten bands grows exactly if the zone is shingled and the slot is not its last |
| `FluidSpace.FluidSmr.Update` | main.c:1371-1448 | at most one address is updated in place, the first recorded one at its first slot, and only that turns a band RMW |
| `FluidSpace.FluidSmr.Write` | main.c:1365-2173 | starts reclaiming exactly if the free blocks are fewer than the request; otherwise appends the rest of the request to the log of its type, leaves over exactly what there is no room for, records every address it went through and nothing else, forgets nothing; says which band an update turned RMW |
| `FluidSpace.FluidSmr.Read` | main.c:1335-1363 | a read changes neither zones nor owners; zone by zone it looks for the range its counter still covers, which shrinks from the end, and the disk reads as many tracks of the zone as were found |
| `FluidSpace.FluidSmr.Delete` | main.c:2194-2223 | clears the full-marks of exactly the zones its sweep reaches and finds records in, reads as many tracks of each, and changes no owner |
| `FluidSpace.FluidSmr.FreeSpaceIsExact` | main.c:2097-2171 | the free-space counter plus the owned tracks plus the sealed slots is the size of the disk, at every moment |
| `FluidSpace.FluidSmr.EndsNeverCross` | main.c:2117-2134 | conventional zones lie below the one boundary, the others above the other, bands between are untouched, band flags agree with zone types |
| `FluidSpace.FluidSmr.RewritesAreUpdates` | main.c:1400-1443 | something was rewritten if and only if some update hit a slot that its shingled zone had written past; otherwise no band is RMW and nothing was read back |
| `FluidSpace.FluidSmr.WritesAreAppendsAndUpdates` | main.c:1400-2164 | at every moment the bytes written are the owned tracks once, plus one track per update in place: appends write nothing twice |
| `FluidTrace.LogsArePlaced` | main.c:2054-2173 | at every moment of a run the log of a type is the concatenation of what the served writes with that hint placed |
| `FluidTrace.LossIsFinal` | main.c:2054-2173 | after a write that left something over, every zone is in use and none of its type has room for the rest of the run |
| `FluidTrace.GuardAdmitsLoss` | main.c:1455-2173 | the guard of a write counts all free blocks, so it admits requests that lose some: on 1 GiB, a conventional write of 170 blocks and one of 200 new blocks are both served, and the second loses 30 |
| `FluidTrace.RewrittenByHits` | main.c:1371-1448 | a band is rewritten after some lines if and only if the update in place of one of them hit a slot its shingled zone had written past |
| `FluidTrace.KeptToTheEnd` | main.c:2054-2223 | what a served write went through is recorded for the rest of the run |
| `FluidTrace.RecordedWasWritten` | main.c:2054-2223 | whatever is recorded was written by a line of the trace |
| `FluidTrace.RecordedIsWentThrough` | main.c:1301-2223 | a block is recorded for a file if and only if it holds a byte of a served write line of the file and is not among the last ones, as many as that line left over |
| `FluidTrace.SlotIsOfItsType` | main.c:2054-2173 | a slot names a block that such a line asked to be put in a zone of that type |
| `FluidTrace.HitMeansWrittenBefore` | main.c:1371-1448 | a write line updates in place if and only if an earlier line of its file recorded one of the blocks that hold its bytes |
| `FluidTrace.HitIsFirst` | main.c:1371-1448 | the updated address is the lowest such block, and the updated slot the first, zone by zone, that names it |
| `FluidTrace.OnceMeansNoHit` | main.c:1371-1448 | when no file writes an address twice, no update scan finds anything |
| `FluidTrace.CompleteRunIsDetermined` | main.c:1258-2259 | outcomes, updates, rewritten bands, zone types and everything the zones hold follow from the trace and the size of the disk, whatever the slots held when they were allocated |
| `FluidTrace.Serve` | main.c:1333-2230 | one line of a trace is one step of the space: what the update scan found and turned, whether reclaiming starts, how much was left over, what was placed, what a read or delete was charged, what a delete unmarked |
| `FluidTrace.ParsingCsv` | main.c:1258-2259 | every trace up to the first reclaim is a run of such steps from a fresh space; at its end exactly the blocks that served write lines went through are recorded, told from their bytes, in zones of the types they asked for, and the log of every type is in their order; a write that left something over leaves no room of its type; a reclaim means that more blocks hold bytes of the line than are free; exactly the bands turned by some update in place are RMW, a rewrite was charged if and only if there is one, and the bytes written are the owned tracks plus the updates |

## Left out

- Reclamation in FluidSMR (main.c:1455-2052): a write that would start it ends the run with `NeedsReclaim`. Cache zones exist only after it, so their branches are left out too.
- FluidSpace.FluidSmr.Write: how many seeks its disk writes cost together is not summed up for the request; each of them is charged as `SmrDisk.Disk.LbaWrite` says. Bytes written and whether anything is rewritten are exact.
- FluidSpace.FluidSmr.Read: the tracks read are the first ones of each zone that holds something, whichever tracks hold the records; the contract says so because main.c:1355 does. That a read returns the data of its range is therefore not promised.
- The update lists are read at slot 0 even when empty (main.c:855, main.c:2069); the model passes over an address only if the list holds it. In the hybrid disk the list is always empty, because the count of used zones it scans stays 0 (main.c:703, main.c:793), so that scan is not modelled.
- Whether the disk accepts the journal and home writes of the hybrid disk: its zones share addresses with the data, so its commands are logged, not executed.
- Counters are unbounded integers; the wrap-around of 64-bit counters and of `lba + n - 1` in the range checks is not modelled. The counts that do wrap in practice (the zone count of the final checkpoint, the shingled boundary, the left-over count of FluidSMR reads and deletes, and with it the end of the range of a read) wrap explicitly.
- SmrDisk.Disk.constructor: asks for at most 2^32 blocks, because `update_ltp_table` truncates addresses to 32 bits (src/pba.c:81-85). `DiskState.StoredPbaIsExact` shows where the line is, and `DiskState.FirstWriteIsReadBack` the request that fails beyond it: a block at address 2^32 or above is accepted and then not read back.
- FluidSpace.FluidSmr.constructor: asks for at most 2^32 blocks, for the same reason.
- Heads and windows are kept as track numbers; the program keeps byte addresses that are always whole tracks.
- `band_end`, `band_CMR_end`, `flagCACHE` and `NSW_amount` are written but not read by the modelled code.
- `cacheFlag`, the cache parsers, `journaling_write`, `lba_invalid`, `pba_search_jfs`, `rw_block` and the journaling mode of the report: no modelled parser uses them.
- Allocation failures, growth of the batch tables, and `qsort` itself (the batch is sorted by a function).
- Per-run updates of the report are collected and added once per request; the sums are the same.
- Reading and parsing lines, the limit on their number, progress output, usage percentages and `src/output.c`.
- Write-head dominance in the CMR build and in conventional bands, where writes move no head.
