/** The tables of the disk as values: blocks, translation entries and the report (include/lba.h). */
module DiskState {
  import opened Geometry
  import opened Ascending
  import opened Ownership
  import opened Bands

  datatype Status = Free | Booked | InUse | Invalid

  datatype Block = Block(status: Status, lba: nat, count: nat)

  datatype LtpEntry = LtpEntry(pba: nat, fid: nat, valid: bool)

  predicate StorageIsInUse(b: Block) { b.status == Booked || b.status == InUse }

  function Live(st: seq<Block>): set<nat> {
    set t: nat | t < |st| && StorageIsInUse(st[t])
  }

  function InUseTracks(st: seq<Block>): set<nat> {
    set t: nat | t < |st| && st[t].status == InUse
  }

  function SumCountsTo(st: seq<Block>, k: nat): nat
    requires k <= |st|
  {
    if k == 0 then 0 else SumCountsTo(st, k - 1) + st[k - 1].count
  }

  /** How often blocks have been written, over the whole disk. */
  function SumCounts(st: seq<Block>): nat { SumCountsTo(st, |st|) }

  lemma {:induction false} SumCountsSame(st: seq<Block>, st': seq<Block>, k: nat)
    requires k <= |st| && k <= |st'| && forall i :: 0 <= i < k ==> st[i].count == st'[i].count
    ensures SumCountsTo(st, k) == SumCountsTo(st', k)
  {
    if k > 0 { SumCountsSame(st, st', k - 1); }
  }

  lemma {:induction false} SumCountsUpdateTo(st: seq<Block>, i: nat, b: Block, k: nat)
    requires i < k <= |st|
    ensures SumCountsTo(st[i := b], k) + st[i].count == SumCountsTo(st, k) + b.count
  {
    if i == k - 1 { SumCountsSame(st, st[i := b], i); } else { SumCountsUpdateTo(st, i, b, k - 1); }
  }

  lemma {:induction false} SumCountsUpdate(st: seq<Block>, i: nat, b: Block)
    requires i < |st|
    ensures SumCounts(st[i := b]) + st[i].count == SumCounts(st) + b.count
  {
    SumCountsUpdateTo(st, i, b, |st|);
  }

  lemma {:induction false} SumCountsZero(st: seq<Block>, k: nat)
    requires k <= |st| && forall i :: 0 <= i < k ==> st[i].count == 0
    ensures SumCountsTo(st, k) == 0
  {
    if k > 0 { SumCountsZero(st, k - 1); }
  }

  function OwnersOf(lt: seq<LtpEntry>): Owners {
    map l: nat | l < |lt| && lt[l].valid :: lt[l].fid
  }

  /** Between operations: valid entries map to themselves, exactly the valid blocks are in use, none is booked. */
  ghost predicate Mapped(st: seq<Block>, lt: seq<LtpEntry>) {
    && |st| == |lt|
    && forall l :: 0 <= l < |st| ==>
         if lt[l].valid then lt[l].pba == l && st[l].lba == l && st[l].status == InUse
         else st[l].status == Free || st[l].status == Invalid
  }

  /** The tables once the addresses of `claimed` below `hi` are linked to `fid`, before the data is written. */
  ghost predicate Linked(st0: seq<Block>, lt0: seq<LtpEntry>, st: seq<Block>, lt: seq<LtpEntry>,
                         claimed: set<nat>, hi: nat, fid: nat) {
    && |st| == |st0| && |lt| == |lt0| == |st0|
    && forall l :: 0 <= l < |st| ==>
         if l in claimed && l < hi then
           lt[l] == LtpEntry(l, fid, true) && st[l] == Block(if lt0[l].valid then InUse else Booked, l, st0[l].count)
         else lt[l] == lt0[l] && st[l] == st0[l]
  }

  /** The blocks once the first `k` tracks of a batch have been written. */
  ghost predicate Written(st0: seq<Block>, st: seq<Block>, tracks: seq<nat>, k: nat)
    requires k <= |tracks|
  {
    && |st| == |st0|
    && forall l :: 0 <= l < |st| ==>
         st[l] == if l in tracks[..k] then Block(InUse, st0[l].lba, st0[l].count + 1) else st0[l]
  }

  /** The tables once the first `k` tracks of a batch have been deleted. */
  ghost predicate Erased(st0: seq<Block>, lt0: seq<LtpEntry>, st: seq<Block>, lt: seq<LtpEntry>, tracks: seq<nat>, k: nat)
    requires k <= |tracks|
  {
    && |st| == |st0| && |lt| == |lt0| == |st0|
    && forall l :: 0 <= l < |st| ==>
         if l in tracks[..k] then st[l] == st0[l].(status := Invalid) && lt[l] == lt0[l].(valid := false)
         else st[l] == st0[l] && lt[l] == lt0[l]
  }

  lemma {:induction false} InUseGrows(st: seq<Block>, l: nat, count: nat)
    requires l < |st|
    ensures var st' := st[l := Block(InUse, st[l].lba, count)];
      && InUseTracks(st') == InUseTracks(st) + {l}
      && |InUseTracks(st')| == |InUseTracks(st)| + (if st[l].status == InUse then 0 else 1)
  {
    var st' := st[l := Block(InUse, st[l].lba, count)];
    assert InUseTracks(st') == InUseTracks(st) + {l};
    if st[l].status == InUse {
      assert InUseTracks(st') == InUseTracks(st);
    } else {
      assert l !in InUseTracks(st);
    }
  }

  lemma {:induction false} WrittenStep(st0: seq<Block>, st: seq<Block>, tracks: seq<nat>, k: nat)
    requires k < |tracks| && Written(st0, st, tracks, k)
    requires StrictlyAscending(tracks) && tracks[k] < |st0|
    ensures st[tracks[k]] == st0[tracks[k]]
    ensures var st' := st[tracks[k] := Block(InUse, st[tracks[k]].lba, st[tracks[k]].count + 1)];
      && Written(st0, st', tracks, k + 1)
      && InUseTracks(st') == InUseTracks(st) + {tracks[k]}
      && |InUseTracks(st')| == |InUseTracks(st)| + (if st[tracks[k]].status == InUse then 0 else 1)
      && SumCounts(st') == SumCounts(st) + 1
  {
    assert tracks[..k + 1] == tracks[..k] + [tracks[k]];
    SumCountsUpdate(st, tracks[k], Block(InUse, st[tracks[k]].lba, st[tracks[k]].count + 1));
    InUseGrows(st, tracks[k], st[tracks[k]].count + 1);
  }

  lemma {:induction false} ErasedStep(st0: seq<Block>, lt0: seq<LtpEntry>, st: seq<Block>, lt: seq<LtpEntry>,
                                      tracks: seq<nat>, k: nat)
    requires k < |tracks| && Mapped(st0, lt0) && Erased(st0, lt0, st, lt, tracks, k)
    requires StrictlyAscending(tracks) && tracks[k] < |st0| && lt0[tracks[k]].valid
    ensures st[tracks[k]] == st0[tracks[k]] && lt[tracks[k]] == lt0[tracks[k]]
    ensures var st' := st[tracks[k] := st[tracks[k]].(status := Invalid)];
      && Erased(st0, lt0, st', lt[tracks[k] := lt[tracks[k]].(valid := false)], tracks, k + 1)
      && InUseTracks(st) == InUseTracks(st') + {tracks[k]} && tracks[k] !in InUseTracks(st')
      && |InUseTracks(st)| == |InUseTracks(st')| + 1
      && SumCounts(st') == SumCounts(st)
  {
    assert tracks[..k + 1] == tracks[..k] + [tracks[k]];
    assert tracks[k] !in tracks[..k];
    SumCountsUpdate(st, tracks[k], st[tracks[k]].(status := Invalid));
  }

  /** Tables of a freshly initialised disk. */
  lemma {:induction false} InitialTables(st: seq<Block>, lt: seq<LtpEntry>, bands: seq<Band>)
    requires |st| == |lt|
    requires forall l :: 0 <= l < |st| ==> st[l] == Block(Free, 0, 0) && lt[l] == LtpEntry(0, 0, false)
    requires forall b :: 0 <= b < |bands| ==> InitialBand(bands[b], b)
    ensures Mapped(st, lt) && OwnersOf(lt) == map[]
    ensures SumCounts(st) == 0 && InUseTracks(st) == {} == Live(st)
    ensures WellPlaced(bands) && Dominated(bands, Live(st))
  {
    SumCountsZero(st, |st|);
    assert OwnersOf(lt).Keys == {};
  }

  /** Linking books blocks but writes nothing. */
  lemma {:induction false} LinkedKeepsTotals(st0: seq<Block>, lt0: seq<LtpEntry>, st: seq<Block>, lt: seq<LtpEntry>,
                          claimed: set<nat>, hi: nat, fid: nat)
    requires Mapped(st0, lt0) && Linked(st0, lt0, st, lt, claimed, hi, fid)
    ensures SumCounts(st) == SumCounts(st0) && InUseTracks(st) == InUseTracks(st0)
  {
    SumCountsSame(st, st0, |st|);
  }

  /** An address is claimed exactly when it is free or the file's own. */
  ghost predicate ClaimsAt(lt: seq<LtpEntry>, claimed: set<nat>, l: nat, fid: nat)
    requires l < |lt|
  {
    l in claimed <==> (lt[l].valid ==> lt[l].fid == fid)
  }

  /** Before the first address of a range nothing is linked yet. */
  lemma {:induction false} LinkStart(st: seq<Block>, lt: seq<LtpEntry>, claimed: set<nat>, lba: nat, n: nat, fid: nat)
    requires |st| == |lt| && lba + n <= |lt| && claimed == Claimable(OwnersOf(lt), lba, n, fid)
    ensures Linked(st, lt, st, lt, claimed, lba, fid)
    ensures forall l: nat :: lba <= l < lba + n ==> ClaimsAt(lt, claimed, l, fid)
  {
  }

  /** One more address of the range is linked, or left to its owner. */
  lemma {:induction false} LinkedStep(st0: seq<Block>, lt0: seq<LtpEntry>, st: seq<Block>, lt: seq<LtpEntry>,
                   claimed: set<nat>, l: nat, fid: nat)
    requires Mapped(st0, lt0) && Linked(st0, lt0, st, lt, claimed, l, fid) && l < |st|
    ensures st[l] == st0[l] && lt[l] == lt0[l]
    ensures l !in claimed ==> Linked(st0, lt0, st, lt, claimed, l + 1, fid)
    ensures l in claimed ==>
      Linked(st0, lt0, st[l := Block(if lt[l].valid then InUse else Booked, l, st[l].count)], lt[l := LtpEntry(l, fid, true)],
             claimed, l + 1, fid)
  {
  }

  lemma {:induction false} NothingLinked(st0: seq<Block>, lt0: seq<LtpEntry>, st: seq<Block>, lt: seq<LtpEntry>,
                      claimed: set<nat>, hi: nat, fid: nat)
    requires Linked(st0, lt0, st, lt, claimed, hi, fid) && claimed == {}
    ensures st == st0 && lt == lt0
  {
  }

  /** After linking, the claimed addresses are live. */
  lemma {:induction false} LinkedIsLive(st0: seq<Block>, lt0: seq<LtpEntry>, st: seq<Block>, lt: seq<LtpEntry>,
                     claimed: set<nat>, hi: nat, fid: nat)
    requires Mapped(st0, lt0) && Linked(st0, lt0, st, lt, claimed, hi, fid)
    requires forall l :: l in claimed ==> l < hi <= |st|
    ensures Live(st) == Live(st0) + claimed
  {
  }

  /** Linking and writing `claimed` refines claiming it in the owner map. */
  lemma {:induction false} WriteRefinesClaim(st0: seq<Block>, lt0: seq<LtpEntry>, st1: seq<Block>, lt: seq<LtpEntry>,
                                             st: seq<Block>,
                          claimed: set<nat>, tracks: seq<nat>, hi: nat, fid: nat)
    requires Mapped(st0, lt0)
    requires Linked(st0, lt0, st1, lt, claimed, hi, fid)
    requires Written(st1, st, tracks, |tracks|)
    requires forall l :: l in claimed <==> l in tracks
    requires forall l :: l in claimed ==> l < hi <= |st0|
    ensures Mapped(st, lt)
    ensures OwnersOf(lt) == Claim(OwnersOf(lt0), claimed, fid)
    ensures Live(st) == Live(st1) == Live(st0) + claimed
  {
    assert tracks[..|tracks|] == tracks;
    forall l | 0 <= l < |st| ensures l in tracks ==> st[l].status == InUse && lt[l] == LtpEntry(l, fid, true) && st[l].lba == l { }
  }

  /** Erasing a file's tracks refines releasing it in the owner map. */
  lemma {:induction false} EraseRefinesRelease(st0: seq<Block>, lt0: seq<LtpEntry>, st: seq<Block>, lt: seq<LtpEntry>,
                                               tracks: seq<nat>, fid: nat)
    requires Mapped(st0, lt0)
    requires Erased(st0, lt0, st, lt, tracks, |tracks|)
    requires forall l :: l in tracks <==> l in OwnedBy(OwnersOf(lt0), fid)
    ensures Mapped(st, lt)
    ensures OwnersOf(lt) == Release(OwnersOf(lt0), fid)
    ensures Live(st) <= Live(st0)
  {
    assert tracks[..|tracks|] == tracks;
  }

  /** Between operations the live tracks are the owned addresses. */
  lemma {:induction false} LiveIsOwned(st: seq<Block>, lt: seq<LtpEntry>)
    requires Mapped(st, lt)
    ensures Live(st) == InUseTracks(st) == OwnersOf(lt).Keys
  {
  }

  // ----- the width of the translation table ----------------------------------------

  /** An entry of the translation table keeps 32 bits of the track; that is exact only on disks of at most 2^32 tracks. */
  function StoredPba(pba: nat): nat { pba % UINT_RANGE }

  lemma {:induction false} StoredPbaIsExact(blocks: nat)
    ensures (forall l: nat :: l < blocks ==> StoredPba(l) == l) <==> blocks <= UINT_RANGE
  {
    if blocks > UINT_RANGE {
      assert StoredPba(UINT_RANGE) == 0;
    }
  }

  /** is_block_data_valid: the file has a mapping for the address, and the track it names is in use. */
  ghost predicate IsBlockDataValid(st: seq<Block>, lt: seq<LtpEntry>, l: nat, fid: nat) {
    l < |lt| && lt[l].valid && lt[l].fid == fid && lt[l].pba < |st| && st[lt[l].pba].status == InUse
  }

  /** The tables of a disk of any size, fresh but for one written address. */
  ghost predicate WrittenFirst(st: seq<Block>, lt: seq<LtpEntry>, l: nat, fid: nat) {
    && l < |st| == |lt|
    && (forall t :: 0 <= t < |st| ==> st[t] == if t == l then Block(InUse, l, 1) else Block(Free, 0, 0))
    && (forall t :: 0 <= t < |lt| ==> lt[t] == if t == l then LtpEntry(StoredPba(l), fid, true) else LtpEntry(0, 0, false))
  }

  /** From address 2^32 on, a block that a fresh disk accepted is not read back: its mapping names another track. */
  lemma {:induction false} FirstWriteIsReadBack(st: seq<Block>, lt: seq<LtpEntry>, l: nat, fid: nat)
    requires WrittenFirst(st, lt, l, fid)
    ensures l in OwnersOf(lt) && OwnersOf(lt)[l] == fid
    ensures IsBlockDataValid(st, lt, l, fid) <==> l < UINT_RANGE
  {
  }
}
