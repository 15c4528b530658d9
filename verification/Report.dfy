/** The counters of `struct report` and how requests are charged to them (src/record_op.c, src/pba.c). */
module Reporting {
  import opened Geometry
  import opened Runs

  /** Of the two `struct time_size` parts only `normal` is ever charged; its fields are kept here directly. */
  class Report {
    var currentUseBlockNum: nat
    var totalAccessTime: nat
    var readTime: nat
    var writeTime: nat
    var normalWriteSize: nat
    var readBlockSize: nat
    var writeBlockSize: nat
    var deleteTime: nat
    var deleteWriteBlockSize: nat
    var deleteWriteSize: nat
    var deleteRewriteSize: nat
    var deleteRereadSize: nat
    var readSize: nat
    var writeSize: nat
    var rewriteSize: nat
    var rereadSize: nat
    var insCount: nat
    var readInsCount: nat
    var writeInsCount: nat
    var deleteInsCount: nat
    var numInvalidRead: nat
    var numInvalidWrite: nat

    /** Every time and size counter is what the reads, writes and deletes charged so far come to. */
    ghost predicate Charged(tr: Totals, tw: Totals, td: Totals)
      reads `totalAccessTime, `readTime, `readSize, `writeTime, `normalWriteSize, `writeSize, `rewriteSize, `rereadSize
      reads `deleteTime, `deleteWriteSize, `deleteRewriteSize, `deleteRereadSize
    {
      && readTime == Nanoseconds(tr) && readSize == Bytes(tr.direct)
      && writeTime == Nanoseconds(tw) && writeSize == normalWriteSize == Bytes(tw.direct)
      && rewriteSize == Bytes(tw.rewrite) && rereadSize == Bytes(tw.reread)
      && deleteTime == Nanoseconds(td) && deleteWriteSize == Bytes(td.direct)
      && deleteRewriteSize == Bytes(td.rewrite) && deleteRereadSize == Bytes(td.reread)
      && totalAccessTime == readTime + writeTime + deleteTime
    }

    /** The sizes counted in blocks agree with the tracks charged directly. */
    ghost predicate Balanced(tr: Totals, tw: Totals, td: Totals)
      reads `readBlockSize, `writeBlockSize, `deleteWriteBlockSize
    {
      && readBlockSize == Bytes(tr.direct) && writeBlockSize == Bytes(tw.direct)
      && deleteWriteBlockSize == Bytes(td.direct)
    }

    constructor (ghost none: Totals)
      requires Nanoseconds(none) == 0 && Bytes(none.direct) == Bytes(none.rewrite) == Bytes(none.reread) == 0
      ensures Charged(none, none, none) && Balanced(none, none, none) && currentUseBlockNum == 0
      ensures insCount == readInsCount == writeInsCount == deleteInsCount == 0
      ensures numInvalidRead == numInvalidWrite == 0
    {
      currentUseBlockNum, totalAccessTime := 0, 0;
      readTime, writeTime, normalWriteSize, readBlockSize, writeBlockSize := 0, 0, 0, 0, 0;
      deleteTime, deleteWriteBlockSize, deleteWriteSize, deleteRewriteSize, deleteRereadSize := 0, 0, 0, 0, 0;
      readSize, writeSize, rewriteSize, rereadSize := 0, 0, 0, 0;
      insCount, readInsCount, writeInsCount, deleteInsCount := 0, 0, 0, 0;
      numInvalidRead, numInvalidWrite := 0, 0;
    }

    /** record_read_physical_tracks, for all runs of a read. */
    method ChargeRead(t: Totals, ghost tr: Totals, ghost tw: Totals, ghost td: Totals, ghost tr': Totals)
      requires Charged(tr, tw, td) && IsSum(tr', tr, t)
      modifies this`totalAccessTime, this`readTime, this`readSize
      ensures Charged(tr', tw, td)
    {
      NanosecondsAdd(tr', tr, t);
      BytesAdd(tr', tr, t);
      totalAccessTime := totalAccessTime + Nanoseconds(t);
      readTime := readTime + Nanoseconds(t);
      readSize := readSize + Bytes(t.direct);
    }

    /** record_write_physical_tracks and record_write_virtual_tracks, for all runs of a write. */
    method ChargeWrite(t: Totals, ghost tr: Totals, ghost tw: Totals, ghost td: Totals, ghost tw': Totals)
      requires Charged(tr, tw, td) && IsSum(tw', tw, t)
      modifies this`totalAccessTime, this`writeTime, this`normalWriteSize, this`writeSize, this`rewriteSize, this`rereadSize
      ensures Charged(tr, tw', td)
    {
      NanosecondsAdd(tw', tw, t);
      BytesAdd(tw', tw, t);
      totalAccessTime := totalAccessTime + Nanoseconds(t);
      writeTime := writeTime + Nanoseconds(t);
      normalWriteSize := normalWriteSize + Bytes(t.direct);
      writeSize := writeSize + Bytes(t.direct);
      rewriteSize := rewriteSize + Bytes(t.rewrite);
      rereadSize := rereadSize + Bytes(t.reread);
    }

    /** record_delete_physical_tracks and record_delete_virtual_tracks, for all runs of a delete. */
    method ChargeDelete(t: Totals, ghost tr: Totals, ghost tw: Totals, ghost td: Totals, ghost td': Totals)
      requires Charged(tr, tw, td) && IsSum(td', td, t)
      modifies this`totalAccessTime, this`deleteTime, this`deleteWriteSize, this`deleteRewriteSize, this`deleteRereadSize
      ensures Charged(tr, tw, td')
    {
      NanosecondsAdd(td', td, t);
      BytesAdd(td', td, t);
      totalAccessTime := totalAccessTime + Nanoseconds(t);
      deleteTime := deleteTime + Nanoseconds(t);
      deleteWriteSize := deleteWriteSize + Bytes(t.direct);
      deleteRewriteSize := deleteRewriteSize + Bytes(t.rewrite);
      deleteRereadSize := deleteRereadSize + Bytes(t.reread);
    }
  }

  /** The byte counters of pba_read, pba_write and pba_delete: `tracks` more blocks. */
  method AddBlocks(size: nat, tracks: nat, ghost before: nat) returns (r: nat)
    requires size == Bytes(before)
    ensures r == Bytes(before + tracks)
  {
    TimesAdd(before, tracks, TRACK_SIZE);
    r := size + Bytes(tracks);
  }

  /**
    Latency is the head movement over written, rewritten and twice more re-read tracks, plus one seek per physical
    run and three per virtual run.
   */
  lemma {:induction false} LawfulTime(t: Totals)
    requires Lawful(t)
    ensures Nanoseconds(t) == (L_ROTATIONAL + L_TRANSFER) * (t.direct + t.rewrite + 2 * t.reread)
                              + L_SEEK * (t.physicalRuns + 3 * t.virtualRuns)
  {
    TimesIsProduct(t.seeks, L_SEEK);
    TimesIsProduct(t.passed, L_ROTATIONAL + L_TRANSFER);
  }

  lemma {:induction false} BytesMonotone(a: nat, b: nat)
    requires a <= b
    ensures Bytes(a) <= Bytes(b)
  {
    TimesAdd(a, b - a, TRACK_SIZE);
  }

  lemma {:induction false} LawfulSizes(t: Totals)
    requires Lawful(t)
    ensures Bytes(t.rewrite) <= Bytes(t.reread) <= Bytes(t.rewrite) + Bytes(t.direct)
  {
    BytesMonotone(t.rewrite, t.reread);
    BytesMonotone(t.reread, t.rewrite + t.direct);
    TimesAdd(t.rewrite, t.direct, TRACK_SIZE);
  }

  /** Latency in terms of the reported sizes alone. */
  lemma {:induction false} LawfulLatency(t: Totals)
    requires Lawful(t)
    ensures Nanoseconds(t) * TRACK_SIZE == (L_ROTATIONAL + L_TRANSFER) * (Bytes(t.direct) + Bytes(t.rewrite) + 2 * Bytes(t.reread))
                                           + TRACK_SIZE * L_SEEK * (t.physicalRuns + 3 * t.virtualRuns)
  {
    LawfulTime(t);
    TimesIsProduct(t.direct, TRACK_SIZE);
    TimesIsProduct(t.rewrite, TRACK_SIZE);
    TimesIsProduct(t.reread, TRACK_SIZE);
  }
}
