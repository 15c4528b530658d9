/** The lines of a trace and their byte ranges (main.c). */
module Requests {
  import opened Geometry

  function FirstBlock(bytes: nat): nat { bytes / BLOCK_SIZE }

  /** The number of blocks of a request, computed as the parser does: a partial first block, then whole ones. */
  function BlockCount(bytes: nat, numBytes: nat): nat {
    var remainder := bytes % BLOCK_SIZE;
    var remain := if remainder == 0 then 0 else BLOCK_SIZE - remainder;
    if numBytes == 0 then 0
    else if remain < numBytes then
      var left := numBytes - remain;
      (if remain > 0 then 1 else 0) + left / BLOCK_SIZE + (if left % BLOCK_SIZE > 0 then 1 else 0)
    else 1
  }

  ghost predicate HoldsByte(block: nat, bytes: nat, numBytes: nat) {
    exists b: nat :: bytes <= b < bytes + numBytes && FirstBlock(b) == block
  }

  lemma {:induction false} EndBlock(bytes: nat, numBytes: nat)
    requires numBytes > 0
    ensures FirstBlock(bytes) + BlockCount(bytes, numBytes) == FirstBlock(bytes + numBytes - 1) + 1
  {
  }

  /** A block holds a byte of the request exactly when it is one of the blocks of the request. */
  lemma {:induction false} ConversionIsExact(bytes: nat, numBytes: nat, block: nat)
    ensures HoldsByte(block, bytes, numBytes)
            <==> FirstBlock(bytes) <= block < FirstBlock(bytes) + BlockCount(bytes, numBytes)
    ensures BlockCount(bytes, numBytes) == 0 <==> numBytes == 0
  {
    if numBytes > 0 {
      EndBlock(bytes, numBytes);
      if HoldsByte(block, bytes, numBytes) {
        var b: nat :| bytes <= b < bytes + numBytes && FirstBlock(b) == block;
      }
      if FirstBlock(bytes) <= block <= FirstBlock(bytes + numBytes - 1) {
        var b := if block * BLOCK_SIZE < bytes then bytes else block * BLOCK_SIZE;
        assert FirstBlock(b) == block;
        assert bytes <= b < bytes + numBytes;
      }
    }
  }

  /** The four numbers of a well-formed line. */
  datatype Request = Request(c: int, fid: nat, bytes: nat, numBytes: nat)
}
