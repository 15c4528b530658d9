/** The disk as its users see it: a partial map from block addresses to owning files. */
module Ownership {

  type Owners = map<nat, nat>

  /** The requests of the trace parser; a delete names no range, it removes the whole file. */
  datatype Op = Read(lba: nat, n: nat, fid: nat) | Write(lba: nat, n: nat, fid: nat) | Delete(fid: nat) | Unknown

  predicate InRange(blocks: nat, lba: nat, n: nat) {
    n > 0 && lba + n <= blocks
  }

  /** The addresses of a range that `fid` may write: free ones and its own. */
  function Claimable(m: Owners, lba: nat, n: nat, fid: nat): set<nat> {
    set l: nat | lba <= l < lba + n && (l in m ==> m[l] == fid)
  }

  /** The addresses of a range that `fid` may read. */
  function Owned(m: Owners, lba: nat, n: nat, fid: nat): set<nat> {
    set l: nat | lba <= l < lba + n && l in m && m[l] == fid
  }

  function OwnedBy(m: Owners, fid: nat): set<nat> {
    set l | l in m && m[l] == fid
  }

  function Claim(m: Owners, s: set<nat>, fid: nat): Owners {
    m + map l | l in s :: fid
  }

  function Release(m: Owners, fid: nat): Owners {
    map l | l in m && m[l] != fid :: m[l]
  }

  function Apply(m: Owners, blocks: nat, op: Op): Owners {
    match op
    case Write(lba, n, fid) => if InRange(blocks, lba, n) then Claim(m, Claimable(m, lba, n, fid), fid) else m
    case Delete(fid) => Release(m, fid)
    case _ => m
  }

  /** The number of blocks an operation reports as done. */
  function Result(m: Owners, blocks: nat, op: Op): nat {
    match op
    case Read(lba, n, fid) => if InRange(blocks, lba, n) then |Owned(m, lba, n, fid)| else 0
    case Write(lba, n, fid) => if InRange(blocks, lba, n) then |Claimable(m, lba, n, fid)| else 0
    case Delete(fid) => |OwnedBy(m, fid)|
    case Unknown => 0
  }

  /** The map after a whole trace, and the results reported on the way. */
  function RunOps(m: Owners, blocks: nat, ops: seq<Op>): Owners {
    if |ops| == 0 then m else Apply(RunOps(m, blocks, ops[..|ops| - 1]), blocks, ops[|ops| - 1])
  }

  function Results(m: Owners, blocks: nat, ops: seq<Op>): (r: seq<nat>)
    ensures |r| == |ops|
  {
    if |ops| == 0 then []
    else
      Results(m, blocks, ops[..|ops| - 1]) + [Result(RunOps(m, blocks, ops[..|ops| - 1]), blocks, ops[|ops| - 1])]
  }

  lemma {:induction false} AppliedWrite(m: Owners, blocks: nat, lba: nat, n: nat, fid: nat)
    requires InRange(blocks, lba, n)
    ensures Apply(m, blocks, Write(lba, n, fid)) == Claim(m, Claimable(m, lba, n, fid), fid)
  {
  }

  lemma {:induction false} NothingToRelease(m: Owners, fid: nat)
    requires OwnedBy(m, fid) == {}
    ensures Release(m, fid) == m
  {
    forall l | l in m ensures m[l] != fid { assert l !in OwnedBy(m, fid); }
  }

  // ----- what requests do, address by address -----------------------------------

  /** A read counts the addresses of its range that the file owns, whoever owns the others. */
  lemma {:induction false} ReadCountsOwn(m: Owners, blocks: nat, lba: nat, n: nat, fid: nat, own: set<nat>)
    requires forall l :: l in own <==> lba <= l < lba + n && l in m && m[l] == fid
    ensures Apply(m, blocks, Read(lba, n, fid)) == m
    ensures Result(m, blocks, Read(lba, n, fid)) == if 0 < n && lba + n <= blocks then |own| else 0
    ensures own == {} ==> Result(m, blocks, Read(lba, n, fid)) == 0
  {
    assert own == Owned(m, lba, n, fid);
  }

  /** The blocks of other files make no difference to a read. */
  lemma {:induction false} ReadIgnoresOthers(m: Owners, blocks: nat, lba: nat, n: nat, fid: nat, m': Owners)
    requires forall l: nat :: (l in m && m[l] == fid) <==> (l in m' && m'[l] == fid)
    ensures Result(m', blocks, Read(lba, n, fid)) == Result(m, blocks, Read(lba, n, fid))
  {
    assert Owned(m', lba, n, fid) == Owned(m, lba, n, fid);
  }

  /** A write on the disk gives its file every address of the range that was free, takes none, and counts free and own ones. */
  lemma {:induction false} WriteClaimsExactly(m: Owners, blocks: nat, lba: nat, n: nat, fid: nat, mine: set<nat>)
    requires forall l :: l in mine <==> lba <= l < lba + n && (l in m ==> m[l] == fid)
    ensures var after, onDisk := Apply(m, blocks, Write(lba, n, fid)), 0 < n && lba + n <= blocks;
      && (forall l: nat :: l in after <==> l in m || (onDisk && lba <= l < lba + n))
      && (forall l: nat :: l in after ==> after[l] == if l in m then m[l] else fid)
      && Result(m, blocks, Write(lba, n, fid)) == if onDisk then |mine| else 0
  {
    assert mine == Claimable(m, lba, n, fid);
  }

  /** A delete takes every address of the file, whatever its range, and no other, and counts them. */
  lemma {:induction false} DeleteReleasesExactly(m: Owners, blocks: nat, fid: nat, own: set<nat>)
    requires forall l :: l in own <==> l in m && m[l] == fid
    ensures var after := Apply(m, blocks, Delete(fid));
      && (forall l: nat :: l in after <==> l in m && m[l] != fid)
      && (forall l: nat :: l in after ==> after[l] == m[l])
      && Result(m, blocks, Delete(fid)) == |own|
  {
    assert own == OwnedBy(m, fid);
  }

  // ----- laws over whole traces ------------------------------------------------

  /** Nothing but a delete of the owning file ever takes a block from it. */
  lemma {:induction false} OwnershipIsStable(m: Owners, blocks: nat, ops: seq<Op>, l: nat)
    requires l in m && Delete(m[l]) !in ops
    ensures var after := RunOps(m, blocks, ops); l in after && after[l] == m[l]
  {
    if ops != [] {
      OwnershipIsStable(m, blocks, ops[..|ops| - 1], l);
      assert ops[|ops| - 1] in ops;
    }
  }

  lemma {:induction false} RunAppend(m: Owners, blocks: nat, a: seq<Op>, b: seq<Op>)
    ensures RunOps(m, blocks, a + b) == RunOps(RunOps(m, blocks, a), blocks, b)
  {
    if b == [] {
      assert a + b == a;
    } else {
      assert (a + b)[..|a + b| - 1] == a + b[..|b| - 1];
      RunAppend(m, blocks, a, b[..|b| - 1]);
    }
  }

  /** Whatever a write accepted is still read back after any trace without a delete of that file. */
  lemma {:induction false} ReadYourWrites(m: Owners, blocks: nat, lba: nat, n: nat, fid: nat, ops: seq<Op>)
    requires InRange(blocks, lba, n) && Delete(fid) !in ops
    ensures var after := RunOps(m, blocks, [Write(lba, n, fid)] + ops);
      && Claimable(m, lba, n, fid) <= Owned(after, lba, n, fid)
      && Result(m, blocks, Write(lba, n, fid)) <= Result(after, blocks, Read(lba, n, fid))
  {
    var w := [Write(lba, n, fid)];
    RunAppend(m, blocks, w, ops);
    assert w[..0] == [];
    var m1, after := RunOps(m, blocks, w), RunOps(m, blocks, w + ops);
    forall l | l in Claimable(m, lba, n, fid) ensures l in Owned(after, lba, n, fid) {
      OwnershipIsStable(m1, blocks, ops, l);
    }
    SubsetSize(Claimable(m, lba, n, fid), Owned(after, lba, n, fid));
  }

  lemma {:induction false} SubsetSize(a: set<nat>, b: set<nat>)
    requires a <= b
    ensures |a| <= |b|
  {
    assert b == a + (b - a);
  }

  /** A block changes hands only through a delete: to end with another owner, its file was deleted. */
  lemma {:induction false} NoTheft(m: Owners, blocks: nat, ops: seq<Op>, l: nat)
    requires l in m
    requires var after := RunOps(m, blocks, ops); l !in after || after[l] != m[l]
    ensures Delete(m[l]) in ops
  {
    if Delete(m[l]) !in ops { OwnershipIsStable(m, blocks, ops, l); }
  }

  /** The owned blocks always lie on the disk. */
  lemma {:induction false} OwnersStayInRange(m: Owners, blocks: nat, ops: seq<Op>)
    requires forall l :: l in m ==> l < blocks
    ensures forall l :: l in RunOps(m, blocks, ops) ==> l < blocks
  {
    if ops != [] { OwnersStayInRange(m, blocks, ops[..|ops| - 1]); }
  }

  /** After a delete the file owns nothing, others keep what they had, and any file may claim what was freed. */
  lemma {:induction false} DeleteFreesExactly(m: Owners, blocks: nat, fid: nat, other: nat, l: nat)
    requires l < blocks
    ensures var after := Apply(m, blocks, Delete(fid));
      && OwnedBy(after, fid) == {}
      && (other != fid ==> OwnedBy(after, other) == OwnedBy(m, other))
      && (l in OwnedBy(m, fid) ==> Result(after, blocks, Write(l, 1, other)) == 1)
  {
    var after := Apply(m, blocks, Delete(fid));
    if l in OwnedBy(m, fid) {
      assert Claimable(after, l, 1, other) == {l};
    }
  }

  lemma {:induction false} StrangerOwnsNothing(blocks: nat, ops: seq<Op>, fid: nat)
    requires forall lba: nat, n: nat :: Write(lba, n, fid) !in ops
    ensures forall l :: l in RunOps(map[], blocks, ops) ==> RunOps(map[], blocks, ops)[l] != fid
  {
    if ops != [] {
      var last := ops[|ops| - 1];
      assert last in ops;
      StrangerOwnsNothing(blocks, ops[..|ops| - 1], fid);
    }
  }

  /** On a disk that started empty, a file that never wrote reads nothing. */
  lemma {:induction false} StrangersReadNothing(blocks: nat, ops: seq<Op>, fid: nat, lba: nat, n: nat)
    requires forall l: nat, k: nat :: Write(l, k, fid) !in ops
    ensures Result(RunOps(map[], blocks, ops), blocks, Read(lba, n, fid)) == 0
  {
    StrangerOwnsNothing(blocks, ops, fid);
    ReadCountsOwn(RunOps(map[], blocks, ops), blocks, lba, n, fid, {});
  }
}
