/** The free map of a mounted volume is a bitmap.  The set of marked blocks of a volume
    stands for it: each operation on the one does what the other says. */
module SfsFreeMap {

  import opened Bitmap
  import opened Bytes
  import opened Options
  import opened Sfs
  import opened SfsModel

  /** The bits of the blocks there are say what is marked; the rest of the map, which is as
      long as its blocks, is marked for good. */
  ghost predicate Agrees(bits: Bitmap, blocks: nat, marked: set<nat>)
    reads bits.v
  {
    && bits.Valid() && blocks <= bits.nbits
    && forall i :: 0 <= i < bits.nbits ==> (i in bits.Marked() <==> i >= blocks || i in marked)
  }

  /** sfs_balloc with bitmap_alloc: the same block, so never one past the volume, which is the
      panic there; and the same failure. */
  method Balloc(v: Volume, bits: Bitmap) returns (err: Error, b: nat)
    requires v.Valid() && Agrees(bits, |v.disk|, v.marked)
    modifies v`disk, v`marked, bits.v
    ensures Agrees(bits, |v.disk|, v.marked) && (err == Ok || err == NoSpace)
    ensures err == NoSpace ==> v.Valid() && v.Full() && v.disk == old(v.disk) && v.marked == old(v.marked)
    ensures err == Ok ==> v.Pending(b) && b !in old(v.marked) && v.marked == old(v.marked) + {b}
    ensures err == Ok ==> b < |old(v.disk)| && v.disk == old(v.disk)[b := Zeros(BLOCK)]
    ensures err == Ok ==> bits.Marked() == old(bits.Marked()) + {b}
  {
    var found, index := bits.Alloc();
    err, b := v.Balloc();
    assert found && err == Ok ==> index == b by {
      assert found && err == Ok ==> !(index < b) && !(b < index);
    }
  }

  /** sfs_bfree with bitmap_unmark. */
  method Bfree(bits: Bitmap, blocks: nat, ghost marked: set<nat>, b: nat)
    requires Agrees(bits, blocks, marked) && b in marked && b < blocks
    modifies bits.v
    ensures Agrees(bits, blocks, marked - {b})
  {
    bits.Unmark(b);
  }

  /** sfs_bused with bitmap_isset; None is the panic. */
  method Bused(bits: Bitmap, blocks: nat, ghost marked: set<nat>, b: nat) returns (used: Option<bool>)
    requires Agrees(bits, blocks, marked)
    ensures used == if b >= blocks then None else Some(b in marked)
  {
    if b >= blocks { return None; }
    var r := bits.IsSet(b);
    used := Some(r);
  }
}
