/** What moving bytes between a file and a uio means, and how moves compose. */
module SfsTransfer {

  import opened Bytes
  import opened SfsModel

  /** Block numbers are kept in 32 bits, so offsets matter modulo 2^41. */
  const SPAN := 0x200_0000_0000

  function Low(off: nat): (r: nat)
    ensures r < SPAN
  {
    if off < SPAN then off else Low(off - SPAN)
  }

  function FileBlock(off: nat): nat { (off / BLOCK) % WORD }

  lemma {:induction false} LowIs(off: nat)
    ensures Low(off) == off % SPAN
  {
    if off >= SPAN { LowIs(off - SPAN); }
  }

  lemma FileBlockIs(off: nat)
    ensures FileBlock(off) == Low(off) / BLOCK && off % BLOCK == Low(off) % BLOCK
  {
    LowIs(off);
    var q := off / SPAN;
    assert off == q * SPAN + Low(off);
    assert off / BLOCK == q * WORD + Low(off) / BLOCK;
  }

  lemma {:induction false} LowAdd(off: nat, n: nat)
    requires Low(off) < MAXBYTES && n <= BLOCK
    ensures Low(off + n) == Low(off) + n
  {
    if off >= SPAN {
      LowAdd(off - SPAN, n);
      assert off + n - SPAN == off - SPAN + n;
    }
  }

  function Splice(i: Inode, disk: Disk, here: bool, at: nat, data: seq<byte>, x: nat): byte {
    if here && at <= x < at + |data| then data[x - at] else Content(i, disk, x)
  }

  /** File f has the data at that offset; every other byte of every file is as before. */
  ghost predicate Overwritten(inodes: map<nat, Inode>, disk: Disk, inodes': map<nat, Inode>, disk': Disk,
                              f: nat, at: nat, data: seq<byte>)
  {
    && inodes'.Keys == inodes.Keys
    && forall g, x: nat :: g in inodes ==> Content(inodes'[g], disk', x) == Splice(inodes[g], disk, g == f, at, data, x)
  }

  /** The bytes of a file from an offset on. */
  function Range(i: Inode, disk: Disk, at: nat, n: nat): seq<byte> {
    seq<byte>(n, k requires 0 <= k < n => Content(i, disk, at + k))
  }

  lemma RangeAppend(i: Inode, disk: Disk, at: nat, m: nat, n: nat)
    ensures Range(i, disk, at, m) + Range(i, disk, at + m, n) == Range(i, disk, at, m + n)
  {
  }

  /** Overwriting part of a block that the file maps. */
  lemma PatchOverwrites(inodes: map<nat, Inode>, disk: Disk, marked: set<nat>, f: nat, n: nat, skip: nat,
      data: seq<byte>)
    requires RolesOK(inodes, disk, marked) && f in inodes && Slot(inodes[f], disk, n) != 0 && skip + |data| <= BLOCK
    ensures var d := Slot(inodes[f], disk, n);
      && d < |disk|
      && RolesOK(inodes, disk[d := Patch(disk[d], skip, data)], marked)
      && SameRoles(inodes, disk, inodes, disk[d := Patch(disk[d], skip, data)])
      && Overwritten(inodes, disk, inodes, disk[d := Patch(disk[d], skip, data)], f, n * BLOCK + skip, data)
      && d !in inodes
  {
    var d := Slot(inodes[f], disk, n);
    assert BlockAt(inodes, disk, Dat(f, n)) == d;
    assert forall g :: g in inodes ==> BlockAt(inodes, disk, Ino(g)) == g;
    var c := Patch(disk[d], skip, data);
    WriteKeeps(inodes, disk, marked, f, n, c);
    var disk' := disk[d := c];
    forall g, x: nat | g in inodes
      ensures Content(inodes[g], disk', x) == Splice(inodes[g], disk, g == f, n * BLOCK + skip, data, x)
    {
      assert Content(inodes[g], disk', x) == Written(inodes[g], disk, g == f, n, c, x);
      if g == f && x / BLOCK == n {
        assert x == n * BLOCK + x % BLOCK;
      }
    }
  }

  /** The block a device finds at the byte offset of block b, computed in 32 bits. */
  function DeviceBlock(b: nat): nat { ((b * BLOCK) % WORD) / BLOCK }

  lemma DeviceBlockIs(b: nat)
    requires b < WORD
    ensures DeviceBlock(b) == b % MAXDISK
    ensures DeviceBlock(b) == b <==> b < MAXDISK
  {
    var q, r := b / MAXDISK, b % MAXDISK;
    assert b * BLOCK == q * WORD + r * BLOCK;
  }

  // -------------------------------------------------------------- composing moves

  /** Only the blocks of files differ: not which files there are, nor their size, type
      and link count. */
  ghost predicate SameFiles(inodes: map<nat, Inode>, inodes': map<nat, Inode>) {
    && inodes'.Keys == inodes.Keys
    && forall f :: f in inodes ==>
         inodes'[f].size == inodes[f].size && inodes'[f].kind == inodes[f].kind && inodes'[f].links == inodes[f].links
  }

  /** A moment of a transfer: the volume, and the uio's bytes to come, bytes stored,
      offset and residue. */
  datatype Snap = Snap(inodes: map<nat, Inode>, disk: Disk, marked: set<nat>, vnodes: seq<Vnode>,
                       pending: seq<byte>, stored: seq<byte>, offset: nat, resid: int, room: int)

  /** n bytes have gone from the uio to the file, or from the file to the uio. */
  ghost predicate Moved(a: Snap, b: Snap, writing: bool, f: nat, n: nat) {
    && b.offset == a.offset + n && b.resid == a.resid - n && b.room == a.room - n
    && f in a.inodes && |b.disk| == |a.disk|
    && SameFiles(a.inodes, b.inodes) && a.marked <= b.marked
    && (writing ==>
          && n <= |a.pending| && b.pending == a.pending[n..]
          && Overwritten(a.inodes, a.disk, b.inodes, b.disk, f, Low(a.offset), a.pending[..n]))
    && (!writing ==>
          && b.inodes == a.inodes && b.disk == a.disk && b.marked == a.marked && b.vnodes == a.vnodes
          && b.stored == a.stored + Range(a.inodes[f], a.disk, Low(a.offset), n))
  }

  lemma MovedNothing(a: Snap, b: Snap, writing: bool, f: nat)
    requires f in a.inodes && |b.disk| == |a.disk| && b.offset == a.offset && b.resid == a.resid && b.room == a.room
    requires b.pending == a.pending && b.stored == a.stored && SameFiles(a.inodes, b.inodes) && a.marked <= b.marked
    requires writing ==> SameContents(a.inodes, a.disk, b.inodes, b.disk)
    requires !writing ==> b.inodes == a.inodes && b.disk == a.disk && b.marked == a.marked && b.vnodes == a.vnodes
    ensures Moved(a, b, writing, f, 0)
  {
    assert a.pending[0..] == a.pending && a.pending[..0] == [];
    if writing {
      forall g, x: nat | g in a.inodes
        ensures Content(b.inodes[g], b.disk, x) == Splice(a.inodes[g], a.disk, g == f, Low(a.offset), [], x)
      {
      }
    }
  }

  lemma SpliceTwice(i: Inode, disk: Disk, i': Inode, disk': Disk, here: bool, at: nat, d1: seq<byte>, d2: seq<byte>,
      x: nat)
    requires Content(i', disk', x) == Splice(i, disk, here, at, d1, x)
    ensures Splice(i', disk', here, at + |d1|, d2, x) == Splice(i, disk, here, at, d1 + d2, x)
  {
  }

  lemma MovedTwice(a: Snap, b: Snap, c: Snap, writing: bool, f: nat, m: nat, n: nat)
    requires Moved(a, b, writing, f, m) && Moved(b, c, writing, f, n) && Low(b.offset) == Low(a.offset) + m
    ensures Moved(a, c, writing, f, m + n)
  {
    if writing {
      assert a.pending[m..][n..] == a.pending[m + n..];
      assert a.pending[..m] + b.pending[..n] == a.pending[..m + n];
      forall g, x: nat | g in a.inodes
        ensures Content(c.inodes[g], c.disk, x) ==
                Splice(a.inodes[g], a.disk, g == f, Low(a.offset), a.pending[..m + n], x)
      {
        SpliceTwice(a.inodes[g], a.disk, b.inodes[g], b.disk, g == f, Low(a.offset), a.pending[..m], b.pending[..n], x);
      }
    } else {
      RangeAppend(a.inodes[f], a.disk, Low(a.offset), m, n);
    }
  }

  lemma MovedResid(a: Snap, b: Snap, writing: bool, f: nat, n: nat, extra: int)
    requires Moved(a, b, writing, f, n)
    ensures Moved(a.(resid := a.resid + extra), b.(resid := b.resid + extra), writing, f, n)
  {
  }

  /** One more piece of at most a block, if it came through. */
  lemma MovedFurther(a: Snap, b: Snap, c: Snap, writing: bool, f: nat, m: nat, ok: bool, n: nat)
    requires Moved(a, b, writing, f, m) && Moved(b, c, writing, f, if ok then n else 0)
    requires Low(b.offset) == Low(a.offset) + m
    requires ok ==> n <= BLOCK && Low(b.offset) < MAXBYTES
    ensures Moved(a, c, writing, f, if ok then m + n else m)
    ensures ok ==> Low(c.offset) == Low(a.offset) + m + n
  {
    MovedTwice(a, b, c, writing, f, m, if ok then n else 0);
    if ok { LowAdd(b.offset, n); }
  }

  // ---------------------------------------------------------------- a whole sfs_io

  /** The size field after a write that ended there: 32 bits wide. */
  function NewSize(size: nat, end: nat): nat { if end > size then end % WORD else size }

  /** A write moved n bytes: they are in the file at the offset, nothing else changed
      but the size, which the end of the write may have grown. */
  ghost predicate WroteFile(a: Snap, b: Snap, f: nat, n: nat) {
    && f in a.inodes && n <= |a.pending| && b.pending == a.pending[n..]
    && b.offset == a.offset + n && b.resid == a.resid - n && |b.disk| == |a.disk| && a.marked <= b.marked
    && Overwritten(a.inodes, a.disk, b.inodes, b.disk, f, Low(a.offset), a.pending[..n])
    && (forall g :: g in a.inodes ==> b.inodes[g].kind == a.inodes[g].kind && b.inodes[g].links == a.inodes[g].links)
    && (forall g :: g in a.inodes && g != f ==> b.inodes[g].size == a.inodes[g].size)
    && b.inodes[f].size == NewSize(a.inodes[f].size, b.offset)
  }

  lemma WroteThenSized(a: Snap, b: Snap, c: Snap, f: nat, n: nat)
    requires Moved(a, b, true, f, n) && b.inodes.Keys == c.inodes.Keys
    requires c == b.(inodes := c.inodes, vnodes := c.vnodes) && SameContents(b.inodes, b.disk, c.inodes, c.disk)
    requires c.inodes == b.inodes[f := b.inodes[f].(size := NewSize(b.inodes[f].size, b.offset))]
    ensures WroteFile(a, c, f, n)
  {
    forall g, x: nat | g in a.inodes
      ensures Content(c.inodes[g], c.disk, x) == Splice(a.inodes[g], a.disk, g == f, Low(a.offset), a.pending[..n], x)
    {
      assert Content(c.inodes[g], c.disk, x) == Content(b.inodes[g], b.disk, x);
    }
  }
}
