/** The trace parser of the plain builds (parsing_csv in main.c): byte ranges become block ranges, lines become requests. */
module Trace {
  import opened Geometry
  import opened Requests
  import opened Ascending
  import opened Bands
  import opened Runs
  import opened Ownership
  import opened SmrDisk

  function Decode(r: Request): Op {
    var lba, n := FirstBlock(r.bytes), BlockCount(r.bytes, r.numBytes);
    if r.c == 1 then Read(lba, n, r.fid)
    else if r.c == 2 then Write(lba, n, r.fid)
    else if r.c == 3 then Delete(r.fid)
    else Unknown
  }

  function Ops(trace: seq<Request>): seq<Op> {
    seq(|trace|, i requires 0 <= i < |trace| => Decode(trace[i]))
  }

  // ----- what a line means, byte by byte -------------------------------------------------------

  /** A line has bytes, and all its blocks are on the disk. */
  ghost predicate OnTheDisk(blocks: nat, r: Request) {
    r.numBytes > 0 && forall l: nat :: HoldsByte(l, r.bytes, r.numBytes) ==> l < blocks
  }

  /**
    From owners `a` a line leads to owners `b` and reports `result`: a read counts the blocks of its bytes that its file
    owns, a write takes the free ones and counts those and the file's own, a delete takes everything from its file.
   */
  ghost predicate LineMeans(blocks: nat, a: Owners, b: Owners, r: Request, result: nat) {
    if r.c == 1 then
      && b == a
      && result == if OnTheDisk(blocks, r) then |set l | l in a && a[l] == r.fid && HoldsByte(l, r.bytes, r.numBytes)| else 0
    else if r.c == 2 then
      && (forall l: nat :: l in b <==> l in a || (OnTheDisk(blocks, r) && HoldsByte(l, r.bytes, r.numBytes)))
      && (forall l: nat :: l in b ==> b[l] == if l in a then a[l] else r.fid)
      && result == if OnTheDisk(blocks, r)
                   then |set l: nat | l < blocks && HoldsByte(l, r.bytes, r.numBytes) && (l in a ==> a[l] == r.fid)| else 0
    else if r.c == 3 then
      && (forall l: nat :: l in b <==> l in a && a[l] != r.fid) && (forall l: nat :: l in b ==> b[l] == a[l])
      && result == |set l | l in a && a[l] == r.fid|
    else
      b == a && result == 0
  }

  lemma {:induction false} DiskHoldsLine(blocks: nat, r: Request)
    ensures forall l: nat ::
              HoldsByte(l, r.bytes, r.numBytes) <==> FirstBlock(r.bytes) <= l < FirstBlock(r.bytes) + BlockCount(r.bytes, r.numBytes)
    ensures OnTheDisk(blocks, r) <==> InRange(blocks, FirstBlock(r.bytes), BlockCount(r.bytes, r.numBytes))
  {
    forall l: nat
      ensures HoldsByte(l, r.bytes, r.numBytes) <==> FirstBlock(r.bytes) <= l < FirstBlock(r.bytes) + BlockCount(r.bytes, r.numBytes)
    {
      ConversionIsExact(r.bytes, r.numBytes, l);
    }
    ConversionIsExact(r.bytes, r.numBytes, 0);
    var last := FirstBlock(r.bytes) + BlockCount(r.bytes, r.numBytes) - 1;
    assert r.numBytes > 0 ==> HoldsByte(last, r.bytes, r.numBytes);
  }

  /** The request a line is decoded to does to the owner map what the line means. */
  lemma {:induction false} DecodingIsFaithful(blocks: nat, a: Owners, r: Request)
    requires forall l :: l in a ==> l < blocks
    ensures LineMeans(blocks, a, Apply(a, blocks, Decode(r)), r, Result(a, blocks, Decode(r)))
  {
    hide HoldsByte, FirstBlock, BlockCount, OnTheDisk, Apply, Result;
    var lba, n := FirstBlock(r.bytes), BlockCount(r.bytes, r.numBytes);
    DiskHoldsLine(blocks, r);
    if r.c == 1 {
      ReadCountsOwn(a, blocks, lba, n, r.fid, set l | l in a && a[l] == r.fid && HoldsByte(l, r.bytes, r.numBytes));
    } else if r.c == 2 {
      if OnTheDisk(blocks, r) {
        var mine := set l: nat | l < blocks && HoldsByte(l, r.bytes, r.numBytes) && (l in a ==> a[l] == r.fid);
        WriteClaimsExactly(a, blocks, lba, n, r.fid, mine);
      } else {
        WriteClaimsExactly(a, blocks, lba, n, r.fid, Claimable(a, lba, n, r.fid));
      }
    } else if r.c == 3 {
      var own := set l | l in a && a[l] == r.fid;
      DeleteReleasesExactly(a, blocks, r.fid, own);
      assert own == (set l | l in a && a[l] == r.fid);
    } else {
      NothingApplied(a, blocks);
    }
  }

  lemma {:induction false} NothingApplied(a: Owners, blocks: nat)
    ensures Apply(a, blocks, Unknown) == a && Result(a, blocks, Unknown) == 0
  {
  }

  /** The owners before the lines of a trace and after each, and what was reported. */
  ghost predicate Meaning(blocks: nat, trace: seq<Request>, owners: seq<Owners>, results: seq<nat>) {
    && |owners| == |results| + 1 && |results| <= |trace|
    && forall i :: 0 <= i < |results| ==> LineMeans(blocks, owners[i], owners[i + 1], trace[i], results[i])
  }

  lemma {:induction false} MeaningMore(blocks: nat, trace: seq<Request>, owners: seq<Owners>, results: seq<nat>,
                                       b: Owners, result: nat)
    requires Meaning(blocks, trace, owners, results) && |results| < |trace|
    requires LineMeans(blocks, owners[|results|], b, trace[|results|], result)
    ensures Meaning(blocks, trace, owners + [b], results + [result])
  {
    hide LineMeans;
  }

  /** Until a line deletes the file, it keeps every block it has. */
  lemma {:induction false} FileKeepsBlocks(blocks: nat, trace: seq<Request>, owners: seq<Owners>, results: seq<nat>,
                                           fid: nat, i: nat, j: nat, l: nat)
    requires Meaning(blocks, trace, owners, results) && i <= j <= |results|
    requires forall k :: i <= k < j ==> !(trace[k].c == 3 && trace[k].fid == fid)
    requires l in owners[i] && owners[i][l] == fid
    ensures l in owners[j] && owners[j][l] == fid
  {
    if i < j {
      FileKeepsBlocks(blocks, trace, owners, results, fid, i, j - 1, l);
      assert LineMeans(blocks, owners[j - 1], owners[j], trace[j - 1], results[j - 1]);
    }
  }

  /** So a line that reads the bytes of an earlier write line gets at least what that line got accepted. */
  lemma {:induction false} WrittenBytesAreRead(blocks: nat, trace: seq<Request>, owners: seq<Owners>, results: seq<nat>,
                                               i: nat, j: nat)
    requires Meaning(blocks, trace, owners, results) && i < j < |results|
    requires trace[i].c == 2 && trace[j] == trace[i].(c := 1)
    requires forall k :: i < k < j ==> !(trace[k].c == 3 && trace[k].fid == trace[i].fid)
    ensures results[i] <= results[j]
  {
    var r, a, b, now := trace[i], owners[i], owners[i + 1], owners[j];
    assert LineMeans(blocks, a, b, r, results[i]);
    assert LineMeans(blocks, now, owners[j + 1], trace[j], results[j]);
    if OnTheDisk(blocks, r) {
      var mine := set l: nat | l < blocks && HoldsByte(l, r.bytes, r.numBytes) && (l in a ==> a[l] == r.fid);
      var own := set l | l in now && now[l] == r.fid && HoldsByte(l, r.bytes, r.numBytes);
      forall l | l in mine ensures l in own { FileKeepsBlocks(blocks, trace, owners, results, r.fid, i + 1, j, l); }
      SubsetSize(mine, own);
    }
  }

  lemma {:induction false} FileHasNothing(blocks: nat, trace: seq<Request>, owners: seq<Owners>, results: seq<nat>,
                                          fid: nat, j: nat, l: nat)
    requires Meaning(blocks, trace, owners, results) && owners[0] == map[] && j <= |results|
    requires forall k :: 0 <= k < j ==> !(trace[k].c == 2 && trace[k].fid == fid)
    ensures l in owners[j] ==> owners[j][l] != fid
  {
    if j > 0 {
      FileHasNothing(blocks, trace, owners, results, fid, j - 1, l);
      assert LineMeans(blocks, owners[j - 1], owners[j], trace[j - 1], results[j - 1]);
    }
  }

  /** And on a disk that started empty, a line reads nothing for a file that no earlier line wrote for. */
  lemma {:induction false} UnwrittenFilesReadNothing(blocks: nat, trace: seq<Request>, owners: seq<Owners>,
                                                     results: seq<nat>, j: nat)
    requires Meaning(blocks, trace, owners, results) && owners[0] == map[] && j < |results| && trace[j].c == 1
    requires forall k :: 0 <= k < j ==> !(trace[k].c == 2 && trace[k].fid == trace[j].fid)
    ensures results[j] == 0
  {
    var r, a := trace[j], owners[j];
    assert LineMeans(blocks, a, owners[j + 1], r, results[j]);
    forall l: nat ensures l in a ==> a[l] != r.fid { FileHasNothing(blocks, trace, owners, results, r.fid, j, l); }
    assert (set l | l in a && a[l] == r.fid && HoldsByte(l, r.bytes, r.numBytes)) == {};
  }

  // ----- heads over a trace ----------------------------------------------------------------------

  /** No request ever moves a write head back. */
  lemma {:induction false} WriteAdvancesHeads(build: Build, m: Owners, bands0: seq<Band>, bands: seq<Band>,
                                              lba: nat, n: nat, fid: nat)
    requires WellPlaced(bands0) && WriteMoves(build, m, bands0, bands, lba, n, fid)
    ensures HeadsAdvance(bands0, bands)
  {
    var claimed := Claimable(m, lba, n, fid);
    if claimed != {} && build != CMR {
      BetweenMembers(claimed, lba, lba + n);
      TouchAllWellPlaced(build == FluidSMR, bands0, Between(claimed, lba, lba + n));
    }
  }

  lemma {:induction false} DeleteAdvancesHeads(m: Owners, bands0: seq<Band>, bands: seq<Band>, blocks: nat, fid: nat)
    requires WellPlaced(bands0) && DeleteMoves(m, bands0, bands, blocks, fid)
    ensures HeadsAdvance(bands0, bands)
  {
    var owned := OwnedBy(m, fid);
    if owned != {} {
      BetweenMembers(owned, 0, blocks);
      TouchAllWellPlaced(false, bands0, Between(owned, 0, blocks));
    }
  }

  /** In the shingled builds a delete leaves every head where it was. */
  lemma {:induction false} DeleteKeepsHeads(m: Owners, bands0: seq<Band>, bands: seq<Band>, blocks: nat, fid: nat, b: nat)
    requires Dominated(bands0, m.Keys) && DeleteMoves(m, bands0, bands, blocks, fid)
    requires b < |bands0| && !bands0[b].flagCMR
    ensures b < |bands| && bands[b].writeHead == bands0[b].writeHead
  {
    var owned := OwnedBy(m, fid);
    if owned != {} {
      var tracks := Between(owned, 0, blocks);
      BetweenMembers(owned, 0, blocks);
      forall i | 0 <= i < |tracks| ensures tracks[i] in m.Keys { assert tracks[i] in tracks; }
      LiveBatchKeepsHeads(false, bands0, tracks, m.Keys, b);
    }
  }

  // ----- what a trace is charged -------------------------------------------------------------

  /** Everything besides the owners that a request moves: the bands, and the totals charged per kind of request. */
  datatype Books = Books(bands: seq<Band>, readTotals: Totals, writeTotals: Totals, deleteTotals: Totals)

  /** How one request moves the books of a disk whose addresses belong to `m`. */
  ghost predicate Step(build: Build, blocks: nat, m: Owners, a: Books, b: Books, op: Op) {
    match op
    case Read(lba, n, fid) =>
      && b == a.(readTotals := b.readTotals)
      && (if InRange(blocks, lba, n) then ReadCharges(m, a.readTotals, b.readTotals, lba, n, fid) else b == a)
    case Write(lba, n, fid) =>
      && b == a.(bands := b.bands, writeTotals := b.writeTotals)
      && (if InRange(blocks, lba, n) then
            && WriteMoves(build, m, a.bands, b.bands, lba, n, fid)
            && WriteCharges(build, m, a.bands, a.writeTotals, b.writeTotals, lba, n, fid)
          else b == a)
    case Delete(fid) =>
      && b == a.(bands := b.bands, deleteTotals := b.deleteTotals)
      && DeleteMoves(m, a.bands, b.bands, blocks, fid)
      && DeleteCharges(build, m, a.bands, a.deleteTotals, b.deleteTotals, blocks, fid)
    case Unknown => b == a
  }

  /** A step leaves no choice. */
  lemma {:induction false} StepIsDeterministic(build: Build, blocks: nat, m: Owners, a: Books, b: Books, b': Books, op: Op)
    requires Step(build, blocks, m, a, b, op) && Step(build, blocks, m, a, b', op)
    ensures b == b'
  {
    hide Between, Tally, SplitRuns, WriteList, DeleteList, BandsAfterWrite, TouchAll, Owned, Claimable, OwnedBy, InRange, OnDisk;
  }

  /** The books over a trace: before the first request, and after each. */
  ghost predicate Accounts(build: Build, blocks: nat, m: Owners, ops: seq<Op>, books: seq<Books>) {
    && |books| == |ops| + 1
    && forall i :: 0 <= i < |ops| ==> Step(build, blocks, RunOps(m, blocks, ops[..i]), books[i], books[i + 1], ops[i])
  }

  /** So the totals and the bands after a trace are a function of those before it. */
  lemma {:induction false} AccountsAreDetermined(build: Build, blocks: nat, m: Owners, ops: seq<Op>, a: seq<Books>,
                                                 b: seq<Books>, k: nat)
    requires Accounts(build, blocks, m, ops, a) && Accounts(build, blocks, m, ops, b)
    requires a[0] == b[0] && k <= |ops|
    ensures a[k] == b[k]
  {
    if k > 0 {
      AccountsAreDetermined(build, blocks, m, ops, a, b, k - 1);
      StepIsDeterministic(build, blocks, RunOps(m, blocks, ops[..k - 1]), a[k - 1], a[k], b[k], ops[k - 1]);
    }
  }

  lemma {:induction false} AccountsMore(build: Build, blocks: nat, m: Owners, ops: seq<Op>, i: nat, books: seq<Books>, b: Books)
    requires i < |ops| && Accounts(build, blocks, m, ops[..i], books)
    requires Step(build, blocks, RunOps(m, blocks, ops[..i]), books[i], b, ops[i])
    ensures Accounts(build, blocks, m, ops[..i + 1], books + [b])
  {
    hide Step, RunOps;
    var books' := books + [b];
    forall j | 0 <= j < i + 1
      ensures Step(build, blocks, RunOps(m, blocks, ops[..i + 1][..j]), books'[j], books'[j + 1], ops[..i + 1][j])
    {
      assert ops[..i + 1][..j] == ops[..j];
      if j < i { assert ops[..i][..j] == ops[..j]; }
    }
  }

  ghost function BooksOf(d: Disk): Books
    reads d, d.band
  {
    Books(d.band[..], d.readTotals, d.writeTotals, d.deleteTotals)
  }

  /** No step moves a head back or changes the kind of a band. */
  lemma {:induction false} StepAdvancesHeads(build: Build, blocks: nat, m: Owners, a: Books, b: Books, op: Op)
    requires WellPlaced(a.bands) && Step(build, blocks, m, a, b, op)
    ensures HeadsAdvance(a.bands, b.bands)
  {
    match op
    case Write(lba, n, fid) =>
      if InRange(blocks, lba, n) { WriteAdvancesHeads(build, m, a.bands, b.bands, lba, n, fid); }
    case Delete(fid) => DeleteAdvancesHeads(m, a.bands, b.bands, blocks, fid);
    case _ =>
  }

  /** On a disk of shingled bands, dominance speaks of every owned track. */
  lemma {:induction false} ShingledMeansBelow(bands0: seq<Band>, bands: seq<Band>, live: set<nat>)
    requires AllShingled(bands0) && HeadsAdvance(bands0, bands) && Dominated(bands, live)
    ensures BelowHeads(bands, live)
  {
    forall t | t in live ensures BandOf(t) < |bands| && t <= bands[BandOf(t)].writeHead {
      assert !bands0[BandOf(t)].flagCMR;
    }
  }

  // ----- small steps of the loop over a trace ---------------------------------------------------

  lemma {:induction false} OpsOf(trace: seq<Request>)
    ensures |Ops(trace)| == |trace| && forall i :: 0 <= i < |trace| ==> Ops(trace)[i] == Decode(trace[i])
  {
  }

  lemma {:induction false} NothingServed(build: Build, blocks: nat, m: Owners, ops: seq<Op>, b: Books)
    ensures RunOps(m, blocks, ops[..0]) == m && Results(m, blocks, ops[..0]) == []
    ensures Accounts(build, blocks, m, ops[..0], [b])
  {
  }

  lemma {:induction false} NothingMeant(blocks: nat, trace: seq<Request>, m: Owners)
    ensures Meaning(blocks, trace, [m], [])
  {
  }

  lemma {:induction false} ServedMore(m: Owners, blocks: nat, ops: seq<Op>, i: nat)
    requires i < |ops|
    ensures RunOps(m, blocks, ops[..i + 1]) == Apply(RunOps(m, blocks, ops[..i]), blocks, ops[i])
    ensures Results(m, blocks, ops[..i + 1]) == Results(m, blocks, ops[..i]) + [Result(RunOps(m, blocks, ops[..i]), blocks, ops[i])]
  {
    assert ops[..i + 1][..i] == ops[..i];
  }

  lemma {:induction false} SameHeads(bands: seq<Band>)
    ensures HeadsAdvance(bands, bands)
  {
  }

  lemma {:induction false} AdvanceMore(a: seq<Band>, b: seq<Band>, c: seq<Band>)
    requires HeadsAdvance(a, b) && HeadsAdvance(b, c)
    ensures HeadsAdvance(a, c)
  {
  }

  lemma {:induction false} BooksAre(d: Disk)
    ensures BooksOf(d).bands == d.band[..]
  {
  }

  // ----- serving a trace ------------------------------------------------------------------------

  /** One line is one step of the owner map, with its result, and one step of the books. */
  method Serve(d: Disk, r: Request) returns (result: nat)
    requires d.Valid()
    modifies d, d.storage, d.ltp, d.band, d.report
    ensures d.Valid()
    ensures d.Owners() == Apply(old(d.Owners()), d.maxBlockNum, Decode(r))
    ensures result == Result(old(d.Owners()), d.maxBlockNum, Decode(r))
    ensures Step(d.build, d.maxBlockNum, old(d.Owners()), old(BooksOf(d)), BooksOf(d), Decode(r))
  {
    hide ReadCharges, WriteMoves, WriteCharges, DeleteMoves, DeleteCharges, Claimable, Owned, OwnedBy, Claim, Release;
    d.CountLine(r.c);
    var lba, n := FirstBlock(r.bytes), BlockCount(r.bytes, r.numBytes);
    result := 0;
    if r.c == 1 {
      result := d.LbaRead(lba, n, r.fid);
    } else if r.c == 2 {
      result := d.LbaWrite(lba, n, r.fid);
    } else if r.c == 3 {
      result := d.LbaDelete(r.fid);
    }
  }

  /**
    Running any trace refines the owner map, charges and moves what its requests do step by step, and keeps the disk
    valid: no head moves back, and on shingled bands no owned track ever lies beyond its head.
   */
  method ParsingCsv(d: Disk, trace: seq<Request>)
    returns (results: seq<nat>, ghost owners: seq<Owners>, ghost books: seq<Books>)
    requires d.Valid()
    modifies d, d.storage, d.ltp, d.band, d.report
    ensures d.Valid()
    ensures d.Owners() == RunOps(old(d.Owners()), d.maxBlockNum, Ops(trace))
    ensures results == Results(old(d.Owners()), d.maxBlockNum, Ops(trace))
    ensures |results| == |trace| && Meaning(d.maxBlockNum, trace, owners, results)
    ensures owners[0] == old(d.Owners()) && owners[|trace|] == d.Owners()
    ensures Accounts(d.build, d.maxBlockNum, old(d.Owners()), Ops(trace), books)
    ensures books[0] == old(BooksOf(d)) && books[|trace|] == BooksOf(d)
    ensures HeadsAdvance(old(d.band[..]), d.band[..])
    ensures d.build != CMR && AllShingled(old(d.band[..])) ==> BelowHeads(d.band[..], d.Owners().Keys)
  {
    hide *;
    ghost var m, ops, blocks := d.Owners(), Ops(trace), d.maxBlockNum;
    OpsOf(trace);
    NothingServed(d.build, blocks, m, ops, BooksOf(d));
    SameHeads(d.band[..]);
    results, owners, books := [], [m], [BooksOf(d)];
    NothingMeant(blocks, trace, m);
    for i := 0 to |trace|
      invariant d.Valid() && |books| == |owners| == i + 1 && |results| == i
      invariant Meaning(blocks, trace, owners, results) && owners[0] == m && owners[i] == d.Owners()
      invariant d.Owners() == RunOps(m, blocks, ops[..i])
      invariant results == Results(m, blocks, ops[..i])
      invariant Accounts(d.build, blocks, m, ops[..i], books)
      invariant books[0] == old(BooksOf(d)) && books[i] == BooksOf(d)
      invariant HeadsAdvance(old(d.band[..]), d.band[..])
    {
      d.Parts();
      BooksAre(d);
      ghost var before := BooksOf(d);
      d.OwnersAreOnDisk();
      DecodingIsFaithful(blocks, d.Owners(), trace[i]);
      var result := Serve(d, trace[i]);
      MeaningMore(blocks, trace, owners, results, d.Owners(), result);
      ServedMore(m, blocks, ops, i);
      AccountsMore(d.build, blocks, m, ops, i, books, BooksOf(d));
      BooksAre(d);
      StepAdvancesHeads(d.build, blocks, RunOps(m, blocks, ops[..i]), before, BooksOf(d), ops[i]);
      AdvanceMore(old(d.band[..]), before.bands, d.band[..]);
      results, owners, books := results + [result], owners + [d.Owners()], books + [BooksOf(d)];
    }
    assert ops[..|ops|] == ops;
    d.Parts();
    d.LiveIsOwners();
    if d.build != CMR && AllShingled(old(d.band[..])) {
      ShingledMeansBelow(old(d.band[..]), d.band[..], d.Owners().Keys);
    }
  }
}
