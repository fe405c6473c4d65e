/** Where SFS does less than a flat file would: offsets and sizes beyond their 32 bits, blocks
    beyond the reach of a 32-bit byte offset, and bytes left behind by a truncation.  For each,
    exactly when, and a case of it. */
module SfsLimits {

  import opened Bytes
  import opened SfsModel
  import opened SfsTransfer
  import opened SfsTruncate
  import opened Sfs
  import opened Uio

  function Max(a: nat, b: nat): nat { if a < b then b else a }

  // ------------------------------------------------------------------- size and offset

  /** A write, whole or cut short, leaves the larger of the old size and the place where it
      stopped, exactly if that is below 2^32. */
  lemma SizeIsRight(a: Snap, b: Snap, f: nat, n: nat)
    requires WroteFile(a, b, f, n) && InodeOK(a.inodes[f])
    ensures b.inodes[f].size == Max(a.inodes[f].size, a.offset + n) <==> a.offset + n < WORD
    ensures a.offset + n > a.inodes[f].size ==> (a.offset + n - b.inodes[f].size) % WORD == 0
  {
  }

  /** So a write that moves nothing leaves the size as it was exactly if its offset is within
      the file, or is the size modulo 2^32. */
  lemma NothingWritten(a: Snap, b: Snap, f: nat)
    requires WroteFile(a, b, f, 0) && InodeOK(a.inodes[f])
    ensures b.inodes[f].size == a.inodes[f].size <==>
            a.offset <= a.inodes[f].size || a.offset % WORD == a.inodes[f].size
  {
  }

  /** Ten bytes at 1000448, further out than an inode can map, into a file of a thousand:
      they are refused, and the file is 1000448 bytes long; reading what it should have past
      the last block that can be mapped fails. */
  method RefusedAndGrown(v: Volume, k: nat, data: seq<byte>) returns (err: Error, again: Error)
    requires v.Valid() && k < |v.vnodes| && v.vnodes[k].inode.size == 1000 && |data| == 10
    modifies v
    ensures v.Valid() && k < |v.vnodes| && err == again == FileTooBig && v.vnodes[k].inode.size == 1_000_448
  {
    var far := 1_000_448;
    var uio := new Uio.Kinit(true, 10, data, far);
    v.Known(k);
    ghost var n;
    err, n := v.IoWrite(k, uio);
    v.Known(k);
    NotBoundary(far, n);
    again := ReadFails(v, k, MAXBYTES);
  }

  method ReadFails(v: Volume, k: nat, pos: nat) returns (err: Error)
    requires v.Valid() && k < |v.vnodes| && MAXBYTES <= pos < v.vnodes[k].inode.size
    modifies v
    ensures v.Valid() && v.vnodes == old(v.vnodes) && err == FileTooBig
  {
    var uio := new Uio.Kinit(false, 1, [], pos);
    v.Known(k);
    ghost var n;
    err, n := v.IoRead(k, uio);
  }

  /** Nothing is mapped that far out. */
  lemma FarIsZero(i: Inode, disk: Disk, x: nat)
    requires x >= MAXBYTES
    ensures Content(i, disk, x) == 0
  {
  }

  /** Zeros, written over zeros. */
  ghost predicate WritesZeros(a: Snap, f: nat, n: nat)
    requires f in a.inodes && n <= |a.pending|
  {
    forall k :: 0 <= k < n ==> ZeroAt(a, f, k)
  }

  ghost predicate ZeroAt(a: Snap, f: nat, k: nat)
    requires f in a.inodes && k < |a.pending|
  {
    a.pending[k] == 0 && Content(a.inodes[f], a.disk, Low(a.offset) + k) == 0
  }

  /** A write changes the bytes at its offset, and no others, exactly if the offset is below
      2^41, or what it writes is zeros over zeros. */
  lemma BytesAreRight(a: Snap, b: Snap, f: nat, n: nat)
    requires WroteFile(a, b, f, n)
    ensures Overwritten(a.inodes, a.disk, b.inodes, b.disk, f, a.offset, a.pending[..n]) <==>
            a.offset < SPAN || WritesZeros(a, f, n)
  {
    if a.offset >= SPAN {
      if WritesZeros(a, f, n) {
        ZerosAnywhere(a, b, f, n);
      } else if Overwritten(a.inodes, a.disk, b.inodes, b.disk, f, a.offset, a.pending[..n]) {
        NoZerosElsewhere(a, b, f, n);
      }
    }
  }

  lemma ZerosAnywhere(a: Snap, b: Snap, f: nat, n: nat)
    requires WroteFile(a, b, f, n) && a.offset >= SPAN && WritesZeros(a, f, n)
    ensures Overwritten(a.inodes, a.disk, b.inodes, b.disk, f, a.offset, a.pending[..n])
  {
    forall g, x: nat | g in a.inodes
      ensures Content(b.inodes[g], b.disk, x) == Splice(a.inodes[g], a.disk, g == f, a.offset, a.pending[..n], x)
    {
      assert Content(b.inodes[g], b.disk, x) == Splice(a.inodes[g], a.disk, g == f, Low(a.offset), a.pending[..n], x);
      if g == f && Low(a.offset) <= x < Low(a.offset) + n { assert ZeroAt(a, f, x - Low(a.offset)); }
      if g == f && a.offset <= x < a.offset + n { assert ZeroAt(a, f, x - a.offset); }
      if x >= MAXBYTES { FarIsZero(a.inodes[g], a.disk, x); }
    }
  }

  lemma NoZerosElsewhere(a: Snap, b: Snap, f: nat, n: nat)
    requires WroteFile(a, b, f, n) && a.offset >= SPAN
    requires Overwritten(a.inodes, a.disk, b.inodes, b.disk, f, a.offset, a.pending[..n])
    ensures WritesZeros(a, f, n)
  {
    forall k | 0 <= k < n ensures ZeroAt(a, f, k) {
      var far, near := a.offset + k, Low(a.offset) + k;
      FarIsZero(b.inodes[f], b.disk, far);
      assert Content(b.inodes[f], b.disk, far) == Splice(a.inodes[f], a.disk, true, a.offset, a.pending[..n], far) ==
             a.pending[k];
      assert Content(b.inodes[f], b.disk, near) ==
             Splice(a.inodes[f], a.disk, true, Low(a.offset), a.pending[..n], near) == a.pending[k];
      if near >= a.offset {
        FarIsZero(a.inodes[f], a.disk, near);
      } else {
        assert Content(b.inodes[f], b.disk, near) == Splice(a.inodes[f], a.disk, true, a.offset, a.pending[..n], near);
      }
    }
  }

  /** Ten bytes at 2^41 into a file of a thousand: they land at its start, and cut it to ten. */
  method WriteFarOut(v: Volume, k: nat, data: seq<byte>) returns (err: Error)
    requires v.Valid() && k < |v.vnodes| && v.vnodes[k].inode.size == 1000 && |data| == 10
    modifies v
    ensures v.Valid() && k < |v.vnodes| && (err == Ok || (err == NoSpace && v.Full()))
    ensures err == Ok ==> v.vnodes[k].inode.size == 10
    ensures err == Ok ==> forall i :: 0 <= i < 10 ==> Content(v.vnodes[k].inode, v.disk, i) == data[i]
  {
    var uio := new Uio.Kinit(true, 10, data, SPAN);
    v.Known(k);
    ghost var a, f := v.Now(uio), v.vnodes[k].ino;
    ghost var n;
    err, n := v.IoWrite(k, uio);
    v.Known(k);
    LowIs(SPAN);
    NotBoundary(SPAN, n);
    if err == Ok { LandsAtStart(a, v.Now(uio), f, 10); }
  }

  lemma LandsAtStart(a: Snap, b: Snap, f: nat, n: nat)
    requires WroteFile(a, b, f, n) && Low(a.offset) == 0
    ensures forall i :: 0 <= i < n ==> Content(b.inodes[f], b.disk, i) == a.pending[i]
  {
    forall i | 0 <= i < n ensures Content(b.inodes[f], b.disk, i) == a.pending[i] {
      assert Content(b.inodes[f], b.disk, i) == Splice(a.inodes[f], a.disk, true, 0, a.pending[..n], i);
    }
  }

  /** Ten bytes at 2^40 are refused, and leave the file with a size of 0. */
  method WriteRefused(v: Volume, k: nat, data: seq<byte>) returns (err: Error)
    requires v.Valid() && k < |v.vnodes| && v.vnodes[k].inode.size == 1000 && |data| == 10
    modifies v
    ensures v.Valid() && k < |v.vnodes| && err != Ok && v.vnodes[k].inode.size == 0
  {
    var far := 0x100_0000_0000;
    var uio := new Uio.Kinit(true, 10, data, far);
    v.Known(k);
    ghost var n;
    err, n := v.IoWrite(k, uio);
    v.Known(k);
    NotBoundary(far, n);
  }

  lemma NotBoundary(off: nat, n: nat)
    ensures off % BLOCK == 0 && 0 < n < BLOCK ==> !Aligned(off + n)
  {
    BlockOffIs(off + n);
  }

  // --------------------------------------------------------------- blocks out of reach

  /** A whole block written to block b of a volume is in that block exactly if b is below
      2^23, or it was there already. */
  lemma WholeBlockLands(disk: Disk, b: nat, c: seq<byte>)
    requires b < |disk| <= WORD
    ensures DeviceBlock(b) < |disk|
    ensures disk[DeviceBlock(b) := c][b] == c <==> b < MAXDISK || disk[b] == c
  {
    DeviceBlockIs(b);
  }

  /** And one read from it is that block exactly if b is below 2^23, or the two are equal. */
  lemma WholeBlockFound(disk: Disk, b: nat)
    requires b < |disk| <= WORD
    ensures DeviceBlock(b) < |disk|
    ensures disk[DeviceBlock(b)] == disk[b] <==> b < MAXDISK || disk[b % MAXDISK] == disk[b]
  {
    DeviceBlockIs(b);
  }

  /** On the smallest volume that is too large, the last block written overwrites the
      superblock instead. */
  lemma SuperblockOverwritten(disk: Disk, c: seq<byte>)
    requires |disk| == MAXDISK + 1 && disk[MAXDISK] != c
    ensures var disk' := disk[DeviceBlock(MAXDISK) := c]; disk'[0] == c && disk'[MAXDISK] != c
  {
    DeviceBlockIs(MAXDISK);
  }

  // ------------------------------------------------------------- bytes left behind

  /** One byte written where an inode can map it. */
  method WriteByte(v: Volume, k: nat, pos: nat, w: byte) returns (err: Error)
    requires v.Valid() && k < |v.vnodes| && pos < MAXBYTES
    modifies v
    ensures v.Valid() && SameVnodes(old(v.vnodes), v.vnodes) && (err == Ok || (err == NoSpace && v.Full()))
    ensures err == Ok ==> v.vnodes[k].inode.size == Max(old(v.vnodes[k].inode.size), pos + 1)
    ensures err == Ok ==> forall x: nat ::
      Content(v.vnodes[k].inode, v.disk, x) == if x == pos then w else Content(old(v.vnodes[k].inode), old(v.disk), x)
  {
    var uio := new Uio.Kinit(true, 1, [w], pos);
    v.Known(k);
    ghost var a, f := v.Now(uio), v.vnodes[k].ino;
    ghost var n;
    err, n := v.IoWrite(k, uio);
    v.Known(k);
    if err == Ok {
      forall x: nat ensures Content(v.inodes[f], v.disk, x) == if x == pos then w else Content(a.inodes[f], a.disk, x) {
        assert Content(v.inodes[f], v.disk, x) == Splice(a.inodes[f], a.disk, true, pos, a.pending[..1], x);
      }
    }
  }

  lemma OneByte(i: Inode, disk: Disk, x: nat)
    ensures Range(i, disk, x, 1) == [Content(i, disk, x)]
  {
  }

  method ReadByte(v: Volume, k: nat, pos: nat) returns (err: Error, w: byte)
    requires v.Valid() && k < |v.vnodes| && pos < MAXBYTES && pos < v.vnodes[k].inode.size
    modifies v
    ensures v.Valid() && v.vnodes == old(v.vnodes) && v.disk == old(v.disk)
    ensures err == Ok && w == Content(v.vnodes[k].inode, v.disk, pos)
  {
    var uio := new Uio.Kinit(false, 1, [], pos);
    v.Known(k);
    ghost var n;
    err, n := v.IoRead(k, uio);
    OneByte(v.vnodes[k].inode, v.disk, pos);
    w := if err == Ok then uio.Stored()[0] else 0;
  }

  /** A byte written at 200, the file cut to 100 bytes and grown again past it by a byte at
      300: reading at 200 gives the old byte. */
  method OldByteComesBack(v: Volume, k: nat, w: byte) returns (err: Error, r: byte)
    requires v.Valid() && k < |v.vnodes|
    modifies v
    ensures v.Valid() && (err == Ok || (err == NoSpace && v.Full())) && (err == Ok ==> r == w)
  {
    r := 0;
    err := WriteByte(v, k, 200, w);
    if err != Ok { return; }
    v.Known(k);
    ghost var i0, d0, m0, f := v.inodes, v.disk, v.marked, v.vnodes[k].ino;
    Truncate(v, k, 100);
    v.Known(k);
    CutByte(i0, d0, m0, v.inodes, v.disk, v.marked, f, BlockLen(100), 200);
    err := WriteByte(v, k, 300, 1);
    if err != Ok { return; }
    err, r := ReadByte(v, k, 200);
  }
}
