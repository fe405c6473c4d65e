/** A mounted SFS volume on a device that does not fail: space allocation, block mapping,
    and file input and output. */
module Sfs {

  import opened Bytes
  import opened SfsModel
  import opened SfsTransfer
  import opened Uio

  datatype Error = Ok | NoSpace | FileTooBig

  ghost predicate OnDisk(inodes: map<nat, Inode>, disk: Disk, f: nat)
    requires f in inodes
  {
    f < |disk| && |disk[f]| == BLOCK && DecodeInode(disk[f]) == inodes[f]
  }

  ghost predicate Loaded(vnodes: seq<Vnode>, f: nat) { exists k :: 0 <= k < |vnodes| && vnodes[k].ino == f }

  /** At most one vnode per inode; what it holds is the current inode, and if it is not
      dirty, or not loaded, so does the disk. */
  ghost predicate VnodesOK(vnodes: seq<Vnode>, inodes: map<nat, Inode>, disk: Disk) {
    && (forall j, k :: 0 <= j < k < |vnodes| ==> vnodes[j].ino != vnodes[k].ino)
    && (forall k :: 0 <= k < |vnodes| ==>
          vnodes[k].refs > 0 && vnodes[k].ino in inodes && vnodes[k].inode == inodes[vnodes[k].ino])
    && (forall k :: 0 <= k < |vnodes| && !vnodes[k].dirty ==> OnDisk(inodes, disk, vnodes[k].ino))
    && (forall f :: f in inodes && !Loaded(vnodes, f) ==> OnDisk(inodes, disk, f))
  }

  /** A block that is no file's inode can change. */
  lemma VnodesFrame(vnodes: seq<Vnode>, inodes: map<nat, Inode>, disk: Disk, d: nat, c: seq<byte>)
    requires VnodesOK(vnodes, inodes, disk) && d < |disk| && d !in inodes
    ensures VnodesOK(vnodes, inodes, disk[d := c])
  {
    forall f | f in inodes && OnDisk(inodes, disk, f) ensures OnDisk(inodes, disk[d := c], f) { }
  }

  function Changed(vnodes: seq<Vnode>, k: nat, i: Inode): seq<Vnode>
    requires k < |vnodes|
  {
    vnodes[k := vnodes[k].(inode := i, dirty := true)]
  }

  lemma SameLoaded(vnodes: seq<Vnode>, vnodes': seq<Vnode>, f: nat)
    requires |vnodes'| == |vnodes| && forall k :: 0 <= k < |vnodes| ==> vnodes'[k].ino == vnodes[k].ino
    ensures Loaded(vnodes', f) <==> Loaded(vnodes, f)
  {
    if Loaded(vnodes, f) {
      var j :| 0 <= j < |vnodes| && vnodes[j].ino == f;
      assert vnodes'[j].ino == f;
    }
  }

  lemma VnodeChanged(vnodes: seq<Vnode>, inodes: map<nat, Inode>, disk: Disk, k: nat, i: Inode)
    requires VnodesOK(vnodes, inodes, disk) && k < |vnodes|
    ensures VnodesOK(Changed(vnodes, k, i), inodes[vnodes[k].ino := i], disk)
  {
    var vs, now := Changed(vnodes, k, i), inodes[vnodes[k].ino := i];
    assert vs[k].ino == vnodes[k].ino;
    forall j | 0 <= j < |vs| && !vs[j].dirty ensures OnDisk(now, disk, vs[j].ino) {
      assert j != k && vs[j] == vnodes[j] && vs[j].ino != vnodes[k].ino;
      assert OnDisk(inodes, disk, vnodes[j].ino);
    }
    assert Loaded(vs, vnodes[k].ino);
    forall f | f in now && !Loaded(vs, f) ensures OnDisk(now, disk, f) {
      SameLoaded(vnodes, vs, f);
      assert OnDisk(inodes, disk, f);
    }
  }

  /** The same vnodes, but for what is in their inodes. */
  ghost predicate SameVnodes(vnodes: seq<Vnode>, vnodes': seq<Vnode>) {
    && |vnodes'| == |vnodes|
    && forall k :: 0 <= k < |vnodes| ==> vnodes'[k].ino == vnodes[k].ino && vnodes'[k].refs == vnodes[k].refs
  }

  /** Where an offset lies in its block. */
  function BlockOff(off: nat): (r: nat)
    ensures r < BLOCK
  {
    if off < BLOCK then off else BlockOff(off - BLOCK)
  }

  lemma {:induction false} BlockOffIs(off: nat)
    ensures BlockOff(off) == off % BLOCK
  {
    if off >= BLOCK { BlockOffIs(off - BLOCK); }
  }

  lemma SkipIs(off: nat)
    ensures BlockOff(off) == Low(off) % BLOCK
  {
    BlockOffIs(off);
    FileBlockIs(off);
  }

  /** At a block boundary. */
  predicate Aligned(off: nat) { BlockOff(off) == 0 }

  /** The bytes up to the next block boundary, or all if that is less. */
  function LeadLen(off: nat, resid: nat): (len: nat)
    ensures len <= resid && BlockOff(off) + len <= BLOCK
  {
    if Aligned(off) then 0 else if BLOCK - BlockOff(off) > resid then resid else BLOCK - BlockOff(off)
  }

  lemma LeadAligns(off: nat, resid: nat)
    ensures var len := LeadLen(off, resid); resid == len || Aligned(off + len)
  {
    BlockOffIs(off);
    BlockOffIs(off + LeadLen(off, resid));
  }

  /** The clauses of the invariant of a volume: every block has at most one role, vnodes and
      disk agree on the inodes, no block leaks, and every block can be addressed. */
  datatype Clause = Roles | Loads | Marks | Small

  ghost predicate Holds(c: Clause, inodes: map<nat, Inode>, disk: Disk, marked: set<nat>, vnodes: seq<Vnode>,
      reserved: set<nat>)
  {
    match c
    case Roles => RolesOK(inodes, disk, marked)
    case Loads => VnodesOK(vnodes, inodes, disk)
    case Marks => Accounted(inodes, disk, marked, reserved)
    case Small => |disk| <= MAXDISK
  }

  // ---------------------------------------------------------------- a fresh volume

  /** The blocks of the free map. */
  function MapBlocks(nblocks: nat): nat { (nblocks + 8 * BLOCK - 1) / (8 * BLOCK) }

  /** The superblock and the free map. */
  function Reserved(nblocks: nat): set<nat> { set b: nat | b < 2 + MapBlocks(nblocks) && IsReserved(b, nblocks) }

  predicate IsReserved(b: nat, nblocks: nat) { b == 0 || 2 <= b < 2 + MapBlocks(nblocks) }

  function RootInode(): (i: Inode)
    ensures InodeOK(i)
  {
    Inode(0, DIR, 1, seq(NDIRECT, _ => 0), 0)
  }

  lemma RootIs(blocks: Disk)
    requires (forall b :: 0 <= b < |blocks| ==> |blocks[b]| == BLOCK) && 2 + MapBlocks(|blocks|) <= |blocks| <= MAXDISK
    ensures var inodes, disk := map[ROOT := RootInode()], blocks[ROOT := EncodeInode(RootInode())];
      var marked := Reserved(|blocks|) + {ROOT};
      && RolesOK(inodes, disk, marked) && VnodesOK([], inodes, disk)
      && Accounted(inodes, disk, marked, Reserved(|blocks|))
  {
    var i := RootInode();
    var inodes, disk := map[ROOT := i], blocks[ROOT := EncodeInode(i)];
    InodeRoundTrip(i);
    forall p ensures BlockAt(inodes, disk, p) == if p == Ino(ROOT) then ROOT else 0 { }
    assert OnDisk(inodes, disk, ROOT);
    assert BlockAt(inodes, disk, Ino(ROOT)) == ROOT;
  }

  class Volume {
    var disk: Disk
    var marked: set<nat>            // the free map
    var vnodes: seq<Vnode>
    ghost var inodes: map<nat, Inode>
    ghost const reserved: set<nat>  // the superblock and the free map's own blocks

    ghost predicate Valid()
      reads this
    {
      forall c: Clause :: Holds(c, inodes, disk, marked, vnodes, reserved)
    }

    /** The invariant clause by clause. */
    lemma Facts()
      requires Valid()
      ensures RolesOK(inodes, disk, marked) && VnodesOK(vnodes, inodes, disk)
      ensures Accounted(inodes, disk, marked, reserved) && |disk| <= MAXDISK
    {
      assert Holds(Roles, inodes, disk, marked, vnodes, reserved) &&
             Holds(Loads, inodes, disk, marked, vnodes, reserved);
      assert Holds(Marks, inodes, disk, marked, vnodes, reserved) &&
             Holds(Small, inodes, disk, marked, vnodes, reserved);
    }

    lemma Seal()
      requires RolesOK(inodes, disk, marked) && VnodesOK(vnodes, inodes, disk)
      requires Accounted(inodes, disk, marked, reserved) && |disk| <= MAXDISK
      ensures Valid()
    {
    }

    /** What a vnode holds is a file's inode. */
    lemma Known(k: nat)
      requires Valid() && k < |vnodes|
      ensures vnodes[k].ino in inodes && vnodes[k].inode == inodes[vnodes[k].ino] && InodeOK(vnodes[k].inode)
      ensures vnodes[k].ino != 0
    {
      Facts();
    }

    /** Valid but for a block just allocated, which has no role yet. */
    ghost predicate Pending(b: nat)
      reads this
    {
      && RolesOK(inodes, disk, marked) && VnodesOK(vnodes, inodes, disk)
      && Accounted(inodes, disk, marked, reserved + {b}) && b !in reserved && b != 0 && |disk| <= MAXDISK
      && b in marked && b < |disk| && NoRole(inodes, disk, b) && disk[b] == Zeros(BLOCK)
    }

    /** A volume as mksfs leaves it, on a device whose blocks are `blocks` once the superblock
        and the free map are written: the root directory is the only file, and empty. */
    constructor Format(blocks: Disk)
      requires forall b :: 0 <= b < |blocks| ==> |blocks[b]| == BLOCK
      requires 2 + MapBlocks(|blocks|) <= |blocks| <= MAXDISK
      ensures Valid() && inodes == map[ROOT := RootInode()] && vnodes == [] && |disk| == |blocks|
      ensures marked == Reserved(|blocks|) + {ROOT} && reserved == Reserved(|blocks|)
    {
      RootIs(blocks);
      disk := blocks[ROOT := EncodeInode(RootInode())];
      marked := Reserved(|blocks|) + {ROOT};
      vnodes := [];
      inodes, reserved := map[ROOT := RootInode()], Reserved(|blocks|);
      new;
      Seal();
    }

    /** No file and no byte of one has changed. */
    twostate predicate Unchanged()
      reads this
    {
      && SameContents(old(inodes), old(disk), inodes, disk) && SameFiles(old(inodes), inodes)
      && SameVnodes(old(vnodes), vnodes) && |disk| == |old(disk)| && old(marked) <= marked
    }

    /** Every block is in use. */
    ghost predicate Full()
      reads this
    {
      forall x :: 0 <= x < |disk| ==> x in marked
    }

    // ----------------------------------------------------------- space allocation

    /** The search of bitmap_alloc: the lowest block not marked. */
    method FirstFree() returns (b: nat)
      ensures b <= |disk| && (b < |disk| ==> b !in marked) && forall x :: 0 <= x < b ==> x in marked
    {
      b := 0;
      while b < |disk| && b in marked
        invariant 0 <= b <= |disk| && forall x :: 0 <= x < b ==> x in marked
      {
        b := b + 1;
      }
    }

    /** sfs_balloc: the lowest block not marked, cleared. */
    method Balloc() returns (err: Error, b: nat)
      requires Valid()
      modifies this`disk, this`marked
      ensures Unchanged() && (err == Ok || err == NoSpace)
      ensures err == NoSpace ==> Valid() && disk == old(disk) && marked == old(marked) && Full()
      ensures err == Ok ==>
              Pending(b) && b !in old(marked) && marked == old(marked) + {b} && disk == old(disk)[b := Zeros(BLOCK)]
      ensures err == Ok ==> SameRoles(inodes, old(disk), inodes, disk) && forall x :: 0 <= x < b ==> x in old(marked)
    {
      Facts();
      b := FirstFree();
      if b == |disk| { return NoSpace, 0; }
      err := Ok;
      AllocKeeps(inodes, disk, marked, b);
      assert forall f :: f in inodes ==> BlockAt(inodes, disk, Ino(f)) == f;
      VnodesFrame(vnodes, inodes, disk, b, Zeros(BLOCK));
      AccountedKept(inodes, disk, marked, reserved, inodes, disk[b := Zeros(BLOCK)]);
      AccountedAlloc(inodes, disk[b := Zeros(BLOCK)], marked, reserved, b);
      marked := marked + {b};
      disk := disk[b := Zeros(BLOCK)];
    }

    // -------------------------------------------------------------- block mapping

    method SetDirect(k: nat, n: nat, b: nat)
      requires Pending(b) && k < |vnodes| && n < NDIRECT && vnodes[k].inode.direct[n] == 0
      modifies this`vnodes, this`inodes
      ensures Valid() && Unchanged() && Slot(vnodes[k].inode, disk, n) == b
    {
      var i := vnodes[k].inode.(direct := vnodes[k].inode.direct[n := b]);
      SetDirectKeeps(inodes, disk, marked, vnodes[k].ino, n, b);
      AccountedAdded(inodes, disk, marked, reserved, inodes[vnodes[k].ino := i], disk, Dat(vnodes[k].ino, n), b);
      VnodeChanged(vnodes, inodes, disk, k, i);
      inodes := inodes[vnodes[k].ino := i];
      vnodes := Changed(vnodes, k, i);
      Seal();
    }

    method SetIndirect(k: nat, b: nat)
      requires Pending(b) && k < |vnodes| && vnodes[k].inode.indirect == 0
      modifies this`vnodes, this`inodes
      ensures Valid() && Unchanged() && vnodes[k].inode.indirect == b
      ensures forall n :: 0 <= n < PERIND ==> Word(disk, b, n) == 0
    {
      var i := vnodes[k].inode.(indirect := b);
      SetIndirectKeeps(inodes, disk, marked, vnodes[k].ino, b);
      AccountedAdded(inodes, disk, marked, reserved, inodes[vnodes[k].ino := i], disk, Ind(vnodes[k].ino), b);
      VnodeChanged(vnodes, inodes, disk, k, i);
      inodes := inodes[vnodes[k].ino := i];
      vnodes := Changed(vnodes, k, i);
      Seal();
    }

    method SetEntry(k: nat, n: nat, b: nat)
      requires Pending(b) && k < |vnodes| && vnodes[k].inode.indirect != 0 && n < PERIND
      requires Word(disk, vnodes[k].inode.indirect, n) == 0
      modifies this`disk
      ensures Valid() && Unchanged() && Slot(vnodes[k].inode, disk, NDIRECT + n) == b
    {
      var idblock := vnodes[k].inode.indirect;
      SetWordKeeps(inodes, disk, marked, vnodes[k].ino, n, b);
      AccountedAdded(inodes, disk, marked, reserved, inodes, disk[idblock := SetWord(disk[idblock], n, b)],
                     Dat(vnodes[k].ino, NDIRECT + n), b);
      NotAnInode(inodes, disk, marked, Ind(vnodes[k].ino));
      VnodesFrame(vnodes, inodes, disk, idblock, SetWord(disk[idblock], n, b));
      disk := disk[idblock := SetWord(disk[idblock], n, b)];
      Seal();
    }

    /** sfs_bmap for a direct block. */
    method BmapDirect(k: nat, n: nat, doalloc: bool) returns (err: Error, b: nat)
      requires Valid() && k < |vnodes| && n < NDIRECT
      modifies this
      ensures Valid() && Unchanged()
      ensures err == Ok || (err == NoSpace && doalloc && Full() && Slot(vnodes[k].inode, disk, n) == 0)
      ensures err == Ok ==> b == Slot(vnodes[k].inode, disk, n) && (doalloc ==> b != 0)
      ensures !doalloc || Slot(old(vnodes[k].inode), old(disk), n) != 0 ==>
        err == Ok && disk == old(disk) && vnodes == old(vnodes) && inodes == old(inodes) && marked == old(marked)
    {
      Known(k);
      err, b := Ok, vnodes[k].inode.direct[n];
      if b == 0 && doalloc {
        err, b := Balloc();
        if err != Ok { return; }
        SetDirect(k, n, b);
      }
    }

    /** sfs_bmap for a block under the indirect block. */
    method BmapIndirect(k: nat, n: nat, doalloc: bool) returns (err: Error, b: nat)
      requires Valid() && k < |vnodes| && n < PERIND
      modifies this
      ensures Valid() && Unchanged()
      ensures err == Ok || (err == NoSpace && doalloc && Full() && Slot(vnodes[k].inode, disk, NDIRECT + n) == 0)
      ensures err == Ok ==> b == Slot(vnodes[k].inode, disk, NDIRECT + n) && (doalloc ==> b != 0)
      ensures !doalloc || Slot(old(vnodes[k].inode), old(disk), NDIRECT + n) != 0 ==>
        err == Ok && disk == old(disk) && vnodes == old(vnodes) && inodes == old(inodes) && marked == old(marked)
    {
      if vnodes[k].inode.indirect == 0 && !doalloc {
        return Ok, 0;
      } else if vnodes[k].inode.indirect == 0 {
        var idblock;
        err, idblock := Balloc();
        if err != Ok { return err, 0; }
        SetIndirect(k, idblock);
      }
      err, b := FillEntry(k, n, doalloc);
    }

    method FillEntry(k: nat, n: nat, doalloc: bool) returns (err: Error, b: nat)
      requires Valid() && k < |vnodes| && n < PERIND && vnodes[k].inode.indirect != 0
      modifies this`disk, this`marked
      ensures Valid() && Unchanged()
      ensures err == Ok || (err == NoSpace && doalloc && Full() && Slot(vnodes[k].inode, disk, NDIRECT + n) == 0)
      ensures err == Ok ==> b == Slot(vnodes[k].inode, disk, NDIRECT + n) && (doalloc ==> b != 0)
      ensures !doalloc || Slot(old(vnodes[k].inode), old(disk), NDIRECT + n) != 0 ==>
              err == Ok && disk == old(disk) && marked == old(marked)
    {
      Facts();
      assert BlockAt(inodes, disk, Ind(vnodes[k].ino)) == vnodes[k].inode.indirect;
      err, b := Ok, WordAt(disk[vnodes[k].inode.indirect], n);
      if b == 0 && doalloc {
        ghost var was := disk;
        err, b := Balloc();
        if err != Ok { return; }
        assert BlockAt(inodes, disk, Dat(vnodes[k].ino, NDIRECT + n)) ==
               BlockAt(inodes, was, Dat(vnodes[k].ino, NDIRECT + n));
        SetEntry(k, n, b);
      }
    }

    /** sfs_bmap. */
    method Bmap(k: nat, fileblock: nat, doalloc: bool) returns (err: Error, b: nat)
      requires Valid() && k < |vnodes|
      modifies this
      ensures Valid() && Unchanged()
      ensures (err == FileTooBig <==> fileblock >= MAXBLOCKS)
      ensures err == NoSpace ==> Full() && Slot(vnodes[k].inode, disk, fileblock) == 0
      ensures err == Ok ==> b == Slot(vnodes[k].inode, disk, fileblock) && (doalloc ==> b != 0)
      ensures !doalloc || Slot(old(vnodes[k].inode), old(disk), fileblock) != 0 || fileblock >= MAXBLOCKS ==>
        err != NoSpace && disk == old(disk) && vnodes == old(vnodes) && inodes == old(inodes) && marked == old(marked)
    {
      if fileblock < NDIRECT {
        err, b := BmapDirect(k, fileblock, doalloc);
      } else if (fileblock - NDIRECT) / PERIND > 0 {
        err, b := FileTooBig, 0;
      } else {
        err, b := BmapIndirect(k, (fileblock - NDIRECT) % PERIND, doalloc);
      }
    }

    /** The mapping of the block at an offset, whose number is cut to 32 bits. */
    method BmapAt(k: nat, off: nat, doalloc: bool) returns (err: Error, b: nat)
      requires Valid() && k < |vnodes|
      modifies this
      ensures Valid() && Unchanged()
      ensures (err == FileTooBig <==> Low(off) >= MAXBYTES)
      ensures err == NoSpace ==> Full() && Slot(vnodes[k].inode, disk, Low(off) / BLOCK) == 0
      ensures err == Ok ==> b == Slot(vnodes[k].inode, disk, Low(off) / BLOCK) && (doalloc ==> b != 0)
      ensures !doalloc || Slot(old(vnodes[k].inode), old(disk), Low(off) / BLOCK) != 0 || Low(off) >= MAXBYTES ==>
        err != NoSpace && disk == old(disk) && vnodes == old(vnodes) && inodes == old(inodes) && marked == old(marked)
    {
      FileBlockIs(off);
      err, b := Bmap(k, (off / BLOCK) % WORD, doalloc);
    }

    // ----------------------------------------------------------------- file I/O

    /** Why a transfer stopped where it did: the block there cannot be mapped, or there is
        no space for it. */
    ghost predicate Stopped(k: nat, uio: Uio, err: Error)
      requires k < |vnodes|
      reads this, uio
    {
      && (err == FileTooBig ==> Low(uio.offset) >= MAXBYTES)
      && (err == NoSpace ==> uio.writing && Full() && Slot(vnodes[k].inode, disk, Low(uio.offset) / BLOCK) == 0)
      && (err == NoSpace ==> Low(uio.offset) < MAXBYTES)
    }

    ghost function Now(uio: Uio): Snap
      reads this, uio
    {
      Snap(inodes, disk, marked, vnodes, uio.Pending(), uio.Stored(), uio.offset, uio.resid, Room(uio.iov))
    }

    method ReadPart(k: nat, uio: Uio, b: nat, skip: nat, len: nat)
      requires Valid() && k < |vnodes| && uio.Valid() && !uio.writing && len <= uio.resid && skip + len <= BLOCK
      requires b == Slot(vnodes[k].inode, disk, Low(uio.offset) / BLOCK) && skip == Low(uio.offset) % BLOCK
      modifies uio
      ensures uio.Valid() && Moved(old(Now(uio)), Now(uio), false, vnodes[k].ino, len)
    {
      Facts();
      var iobuf := Zeros(BLOCK);
      assert BlockAt(inodes, disk, Dat(vnodes[k].ino, Low(uio.offset) / BLOCK)) == b;
      if b != 0 { iobuf := disk[b]; }
      RangeInBlock(vnodes[k].inode, disk, b, iobuf, Low(uio.offset), len);
      uio.MoveOut(iobuf[skip..skip + len]);
    }

    /** Part of a mapped block is overwritten. */
    method PatchBlock(ghost k: nat, b: nat, ghost n: nat, skip: nat, data: seq<byte>)
      requires Valid() && k < |vnodes| && b == Slot(vnodes[k].inode, disk, n) && b != 0 && skip + |data| <= BLOCK
      modifies this`disk
      ensures Valid() && |disk| == |old(disk)|
      ensures Overwritten(inodes, old(disk), inodes, disk, vnodes[k].ino, n * BLOCK + skip, data)
    {
      Facts();
      assert BlockAt(inodes, disk, Dat(vnodes[k].ino, n)) == b;
      PatchOverwrites(inodes, disk, marked, vnodes[k].ino, n, skip, data);
      VnodesFrame(vnodes, inodes, disk, b, Patch(disk[b], skip, data));
      AccountedKept(inodes, disk, marked, reserved, inodes, disk[b := Patch(disk[b], skip, data)]);
      disk := disk[b := Patch(disk[b], skip, data)];
      Seal();
    }

    method WritePart(k: nat, uio: Uio, b: nat, skip: nat, len: nat)
      requires Valid() && k < |vnodes| && uio.Valid() && uio.writing && len <= uio.resid && skip + len <= BLOCK
      requires b != 0
      requires b == Slot(vnodes[k].inode, disk, Low(uio.offset) / BLOCK) && skip == Low(uio.offset) % BLOCK
      modifies this`disk, uio
      ensures Valid() && uio.Valid() && Moved(old(Now(uio)), Now(uio), true, vnodes[k].ino, len)
    {
      ghost var a := Now(uio);
      Known(k);
      var data := uio.MoveIn(len);
      assert data == a.pending[..len] && uio.Pending() == a.pending[len..];
      assert Low(a.offset) / BLOCK * BLOCK + skip == Low(a.offset);
      PatchBlock(k, b, Low(a.offset) / BLOCK, skip, data);
    }

    /** sfs_partialio: len bytes inside the block at the uio's offset. */
    method PartialIo(k: nat, uio: Uio, skip: nat, len: nat) returns (err: Error)
      requires Valid() && k < |vnodes| && uio.Valid() && len <= uio.resid && skip + len <= BLOCK
      requires skip == BlockOff(uio.offset)
      modifies this, uio
      ensures Valid() && uio.Valid() && SameVnodes(old(vnodes), vnodes)
      ensures Moved(old(Now(uio)), Now(uio), uio.writing, vnodes[k].ino, if err == Ok then len else 0)
      ensures Stopped(k, uio, err) && (err == Ok ==> Low(old(uio.offset)) < MAXBYTES)
    {
      ghost var a := Now(uio);
      SkipIs(uio.offset);
      Known(k);
      var b;
      err, b := BmapAt(k, uio.offset, uio.writing);
      ghost var m := Now(uio);
      MovedNothing(a, m, uio.writing, vnodes[k].ino);
      if err != Ok { return; }
      if uio.writing {
        WritePart(k, uio, b, skip, len);
      } else {
        ReadPart(k, uio, b, skip, len);
      }
      MovedTwice(a, m, Now(uio), uio.writing, vnodes[k].ino, 0, len);
    }

    /** The device writes a whole block from the uio, at its offset. */
    method WriteBlock(k: nat, uio: Uio, ghost b: nat, ghost n: nat)
      requires Valid() && k < |vnodes| && uio.Valid() && uio.writing && uio.resid == BLOCK
      requires b == Slot(vnodes[k].inode, disk, n) && b != 0 && uio.offset / BLOCK == b
      modifies this`disk, uio
      ensures Valid() && uio.Valid() && |disk| == |old(disk)| && uio.offset == old(uio.offset) + BLOCK && uio.resid == 0
      ensures |old(uio.Pending())| >= BLOCK && uio.Pending() == old(uio.Pending())[BLOCK..]
      ensures Overwritten(inodes, old(disk), inodes, disk, vnodes[k].ino, n * BLOCK, old(uio.Pending())[..BLOCK])
      ensures Room(uio.iov) == old(Room(uio.iov)) - BLOCK
    {
      ghost var was := uio.Pending();
      var d := uio.offset / BLOCK;
      var data := uio.MoveIn(BLOCK);
      assert data == was[..BLOCK];
      PatchBlock(k, d, n, 0, data);
    }

    /** The device reads a whole block into the uio, from its offset. */
    method ReadBlock(k: nat, uio: Uio, ghost b: nat, ghost n: nat)
      requires Valid() && k < |vnodes| && uio.Valid() && !uio.writing && uio.resid == BLOCK
      requires b == Slot(vnodes[k].inode, disk, n) && b != 0 && uio.offset / BLOCK == b
      modifies uio
      ensures uio.Valid() && uio.offset == old(uio.offset) + BLOCK && uio.resid == 0
      ensures uio.Stored() == old(uio.Stored()) + Range(vnodes[k].inode, disk, n * BLOCK, BLOCK)
      ensures Room(uio.iov) == old(Room(uio.iov)) - BLOCK
    {
      Facts();
      var d := uio.offset / BLOCK;
      assert BlockAt(inodes, disk, Dat(vnodes[k].ino, n)) == d;
      assert n * BLOCK / BLOCK == n && n * BLOCK % BLOCK == 0;
      RangeInBlock(vnodes[k].inode, disk, d, disk[d], n * BLOCK, BLOCK);
      assert disk[d][0..BLOCK] == disk[d];
      uio.MoveOut(disk[d]);
    }

    lemma InRange(k: nat, n: nat)
      requires Valid() && k < |vnodes|
      ensures Slot(vnodes[k].inode, disk, n) < MAXDISK && vnodes[k].ino in inodes
    {
      Facts();
      assert BlockAt(inodes, disk, Dat(vnodes[k].ino, n)) == Slot(vnodes[k].inode, disk, n);
    }

    /** The transfer of sfs_blockio, with the uio's offset and residue those of the disk
        block for the time being.  The offset is computed in 32 bits. */
    method RwBlock(k: nat, uio: Uio, b: nat)
      requires Valid() && k < |vnodes| && uio.Valid() && BLOCK <= uio.resid && b != 0 && Low(uio.offset) % BLOCK == 0
      requires b == Slot(vnodes[k].inode, disk, Low(uio.offset) / BLOCK)
      modifies this`disk, uio
      ensures Valid() && uio.Valid() && Moved(old(Now(uio)), Now(uio), uio.writing, vnodes[k].ino, BLOCK)
    {
      ghost var n := Low(uio.offset) / BLOCK;
      assert n * BLOCK == Low(uio.offset);
      Known(k);
      InRange(k, n);
      DeviceBlockIs(b);
      var saveoff, saveres, diskoff := uio.offset, uio.resid, (b * BLOCK) % WORD;
      uio.offset, uio.resid := diskoff, BLOCK;
      if uio.writing {
        WriteBlock(k, uio, b, n);
      } else {
        ReadBlock(k, uio, b, n);
      }
      uio.offset, uio.resid := uio.offset - diskoff + saveoff, uio.resid - BLOCK + saveres;
    }

    /** Reading a block that is not there. */
    method ZeroBlock(k: nat, uio: Uio)
      requires Valid() && k < |vnodes| && uio.Valid() && !uio.writing && BLOCK <= uio.resid
      requires Low(uio.offset) % BLOCK == 0
      requires Slot(vnodes[k].inode, disk, Low(uio.offset) / BLOCK) == 0
      modifies uio
      ensures uio.Valid() && Moved(old(Now(uio)), Now(uio), false, vnodes[k].ino, BLOCK)
    {
      Facts();
      RangeInBlock(vnodes[k].inode, disk, 0, Zeros(BLOCK), Low(uio.offset), BLOCK);
      assert Zeros(BLOCK)[0..BLOCK] == Zeros(BLOCK);
      uio.MoveZeros(BLOCK);
    }

    /** sfs_blockio: the whole block at the uio's offset. */
    method BlockIo(k: nat, uio: Uio) returns (err: Error)
      requires Valid() && k < |vnodes| && uio.Valid() && BLOCK <= uio.resid && Aligned(uio.offset)
      modifies this, uio
      ensures Valid() && uio.Valid() && SameVnodes(old(vnodes), vnodes)
      ensures Moved(old(Now(uio)), Now(uio), uio.writing, vnodes[k].ino, if err == Ok then BLOCK else 0)
      ensures Stopped(k, uio, err) && (err == Ok ==> Low(old(uio.offset)) < MAXBYTES)
    {
      ghost var a := Now(uio);
      SkipIs(uio.offset);
      Known(k);
      var b;
      err, b := BmapAt(k, uio.offset, uio.writing);
      ghost var m := Now(uio);
      MovedNothing(a, m, uio.writing, vnodes[k].ino);
      if err != Ok { return; }
      if b == 0 {
        ZeroBlock(k, uio);
      } else {
        RwBlock(k, uio, b);
      }
      MovedTwice(a, m, Now(uio), uio.writing, vnodes[k].ino, 0, BLOCK);
    }

    /** How far a transfer that started at `a` has come. */
    ghost predicate Under(uio: Uio, k: nat, a: Snap, n: nat)
      reads this, uio
    {
      && Valid() && uio.Valid() && k < |vnodes|
      && Moved(a, Now(uio), uio.writing, vnodes[k].ino, n) && Low(uio.offset) == Low(a.offset) + n
    }

    /** One more whole block. */
    method NextBlock(k: nat, uio: Uio, ghost a: Snap, ghost n: nat) returns (err: Error, ghost n': nat)
      requires Under(uio, k, a, n) && BLOCK <= uio.resid && Aligned(uio.offset)
      modifies this, uio
      ensures Valid() && uio.Valid() && SameVnodes(old(vnodes), vnodes)
      ensures Moved(a, Now(uio), uio.writing, vnodes[k].ino, n') && n' == (if err == Ok then n + BLOCK else n)
      ensures err == Ok ==> Low(uio.offset) == Low(a.offset) + n' && Low(old(uio.offset)) < MAXBYTES
      ensures Stopped(k, uio, err)
    {
      ghost var m := Now(uio);
      err := BlockIo(k, uio);
      MovedFurther(a, m, Now(uio), uio.writing, vnodes[k].ino, n, err == Ok, BLOCK);
      n' := if err == Ok then n + BLOCK else n;
    }

    /** The loop over whole blocks. */
    method Blocks(k: nat, uio: Uio, nblocks: nat, ghost a: Snap, ghost n: nat) returns (err: Error, ghost n': nat)
      requires Under(uio, k, a, n) && nblocks * BLOCK <= uio.resid && Aligned(uio.offset)
      modifies this, uio
      ensures Valid() && uio.Valid() && SameVnodes(old(vnodes), vnodes)
      ensures Moved(a, Now(uio), uio.writing, vnodes[k].ino, n') && Aligned(uio.offset)
      ensures err == Ok ==> Low(uio.offset) == Low(a.offset) + n' && n' == n + nblocks * BLOCK
      ensures Stopped(k, uio, err) && (err == Ok && nblocks > 0 ==> Low(old(uio.offset)) < MAXBYTES)
      ensures err != Ok ==> uio.resid > 0
    {
      err, n' := Ok, n;
      for i := 0 to nblocks
        invariant err == Ok && Under(uio, k, a, n') && SameVnodes(old(vnodes), vnodes)
        invariant n' == n + i * BLOCK && Aligned(uio.offset) && (i > 0 ==> Low(old(uio.offset)) < MAXBYTES)
      {
        assert (nblocks - i) * BLOCK >= BLOCK;
        err, n' := NextBlock(k, uio, a, n');
        if err != Ok { return; }
      }
    }

    /** Part of one more block. */
    method NextPart(k: nat, uio: Uio, skip: nat, len: nat, ghost a: Snap, ghost n: nat)
        returns (err: Error, ghost n': nat)
      requires Under(uio, k, a, n) && len <= uio.resid && skip + len <= BLOCK && skip == BlockOff(uio.offset)
      modifies this, uio
      ensures Valid() && uio.Valid() && SameVnodes(old(vnodes), vnodes)
      ensures Moved(a, Now(uio), uio.writing, vnodes[k].ino, n') && n' == (if err == Ok then n + len else n)
      ensures err == Ok ==> Low(uio.offset) == Low(a.offset) + n' && Low(old(uio.offset)) < MAXBYTES
      ensures Stopped(k, uio, err)
    {
      ghost var m := Now(uio);
      err := PartialIo(k, uio, skip, len);
      MovedFurther(a, m, Now(uio), uio.writing, vnodes[k].ino, n, err == Ok, len);
      n' := if err == Ok then n + len else n;
    }

    /** The first phase of sfs_io: a leading partial block. */
    method Leading(k: nat, uio: Uio, ghost a: Snap) returns (err: Error, ghost n: nat)
      requires Under(uio, k, a, 0)
      modifies this, uio
      ensures Valid() && uio.Valid() && SameVnodes(old(vnodes), vnodes)
      ensures Moved(a, Now(uio), uio.writing, vnodes[k].ino, n)
      ensures n == (if err == Ok then LeadLen(old(uio.offset), old(uio.resid)) else 0)
      ensures err == Ok ==> Low(uio.offset) == Low(a.offset) + n && (n > 0 ==> Low(old(uio.offset)) < MAXBYTES)
      ensures Stopped(k, uio, err)
    {
      err, n := Ok, 0;
      BlockOffIs(uio.offset);
      var blkoff := uio.offset % BLOCK;
      if blkoff != 0 {
        var len := LeadLen(uio.offset, uio.resid);
        err, n := NextPart(k, uio, blkoff, len, a, 0);
      }
    }

    /** The last two phases: whole blocks, and a partial block at the end. */
    method Following(k: nat, uio: Uio, ghost a: Snap, ghost n: nat) returns (err: Error, ghost n': nat)
      requires Under(uio, k, a, n) && Aligned(uio.offset) && uio.resid > 0
      modifies this, uio
      ensures Valid() && uio.Valid() && SameVnodes(old(vnodes), vnodes)
      ensures Moved(a, Now(uio), uio.writing, vnodes[k].ino, n') && Stopped(k, uio, err)
      ensures if err == Ok then uio.resid == 0 && Low(old(uio.offset)) < MAXBYTES
              else Aligned(uio.offset) && uio.resid > 0
    {
      var nblocks := uio.resid / BLOCK;
      err, n' := Blocks(k, uio, nblocks, a, n);
      if err == Ok && uio.resid > 0 {
        err, n' := NextPart(k, uio, 0, uio.resid, a, n');
      }
    }

    /** The three phases of sfs_io.  What stops short stops at a block boundary, if it has
        moved anything at all. */
    method Transfer(k: nat, uio: Uio) returns (err: Error, ghost n: nat)
      requires Valid() && k < |vnodes| && uio.Valid()
      modifies this, uio
      ensures Valid() && uio.Valid() && SameVnodes(old(vnodes), vnodes)
      ensures Moved(old(Now(uio)), Now(uio), uio.writing, vnodes[k].ino, n) && Stopped(k, uio, err)
      ensures if err == Ok then uio.resid == 0 else n == 0 || (Aligned(uio.offset) && uio.resid > 0)
      ensures err == Ok && n > 0 ==> Low(old(uio.offset)) < MAXBYTES
    {
      ghost var a := Now(uio);
      Known(k);
      MovedNothing(a, a, uio.writing, vnodes[k].ino);
      LeadAligns(uio.offset, uio.resid);
      err, n := Leading(k, uio, a);
      if err == Ok && uio.resid != 0 {
        err, n := Following(k, uio, a, n);
      }
    }

    // ------------------------------------------------------------------ sfs_io

    method SetSize(k: nat, size: nat)
      requires Valid() && k < |vnodes| && size < WORD
      modifies this`vnodes, this`inodes
      ensures Valid() && SameVnodes(old(vnodes), vnodes) && SameContents(old(inodes), disk, inodes, disk)
      ensures vnodes[k].inode == old(vnodes[k].inode).(size := size)
      ensures inodes == old(inodes)[vnodes[k].ino := vnodes[k].inode]
    {
      Facts();
      var i := vnodes[k].inode.(size := size);
      SizeKeeps(inodes, disk, marked, vnodes[k].ino, size);
      AccountedKept(inodes, disk, marked, reserved, inodes[vnodes[k].ino := i], disk);
      VnodeChanged(vnodes, inodes, disk, k, i);
      inodes := inodes[vnodes[k].ino := i];
      vnodes := Changed(vnodes, k, i);
      Seal();
    }

    method GrowTo(k: nat, end: nat)
      requires Valid() && k < |vnodes|
      modifies this`vnodes, this`inodes
      ensures Valid() && SameVnodes(old(vnodes), vnodes) && SameContents(old(inodes), disk, inodes, disk)
      ensures vnodes[k].inode == old(vnodes[k].inode).(size := NewSize(old(vnodes[k].inode.size), end))
      ensures inodes == old(inodes)[vnodes[k].ino := vnodes[k].inode]
    {
      Known(k);
      if end > vnodes[k].inode.size {
        SetSize(k, end % WORD);
      }
    }

    /** sfs_io, reading: the bytes of the file from the offset on, cut off at its size,
        zeros where no block is mapped; on an error, those before the first block that
        an inode cannot map.  Nothing on the volume changes. */
    method IoRead(k: nat, uio: Uio) returns (err: Error, ghost n: nat)
      requires Valid() && k < |vnodes| && uio.Valid() && !uio.writing
      modifies this, uio
      ensures Valid() && uio.Valid() && disk == old(disk) && marked == old(marked) && vnodes == old(vnodes)
      ensures inodes == old(inodes)
      ensures Moved(old(Now(uio)), Now(uio), false, vnodes[k].ino, n)
      ensures n <= old(uio.resid) && (n > 0 ==> old(uio.offset) + n <= old(vnodes[k].inode.size))
      ensures err == Ok && n < old(uio.resid) ==> old(uio.offset) + n >= old(vnodes[k].inode.size)
      ensures err == Ok && n > 0 ==> Low(old(uio.offset)) < MAXBYTES
      ensures err == Ok ||
              (err == FileTooBig && Low(uio.offset) >= MAXBYTES && (n == 0 || (Aligned(uio.offset) && uio.resid > 0)))
    {
      Known(k);
      var size := vnodes[k].inode.size;
      var endpos := uio.offset + uio.resid;
      ghost var a := Now(uio);
      if uio.offset >= size {
        MovedNothing(a, a, false, vnodes[k].ino);
        return Ok, 0;
      }
      var extraresid := if endpos > size then endpos - size else 0;
      err, n := ReadUpTo(k, uio, extraresid);
    }

    method ReadUpTo(k: nat, uio: Uio, extraresid: nat) returns (err: Error, ghost n: nat)
      requires Valid() && k < |vnodes| && uio.Valid() && !uio.writing && extraresid <= uio.resid
      modifies this, uio
      ensures Valid() && uio.Valid() && disk == old(disk) && marked == old(marked) && vnodes == old(vnodes)
      ensures inodes == old(inodes)
      ensures Moved(old(Now(uio)), Now(uio), false, vnodes[k].ino, n)
      ensures n <= old(uio.resid) - extraresid
      ensures err == Ok ==> n == old(uio.resid) - extraresid && (n > 0 ==> Low(old(uio.offset)) < MAXBYTES)
      ensures err == Ok ||
              (err == FileTooBig && Low(uio.offset) >= MAXBYTES && (n == 0 || (Aligned(uio.offset) && uio.resid > 0)))
    {
      uio.resid := uio.resid - extraresid;
      ghost var a := Now(uio);
      err, n := Transfer(k, uio);
      MovedResid(a, Now(uio), false, vnodes[k].ino, n, extraresid);
      uio.resid := uio.resid + extraresid;
    }

    /** sfs_io, writing: all the bytes, or on an error those before the block that could
        not be mapped; a size below the place where it stopped becomes that, in 32 bits, even
        if nothing was written. */
    method IoWrite(k: nat, uio: Uio) returns (err: Error, ghost n: nat)
      requires Valid() && k < |vnodes| && uio.Valid() && uio.writing
      modifies this, uio
      ensures Valid() && uio.Valid() && SameVnodes(old(vnodes), vnodes)
      ensures WroteFile(old(Now(uio)), Now(uio), vnodes[k].ino, n) && Stopped(k, uio, err)
      ensures if err == Ok then uio.resid == 0 else n == 0 || (Aligned(uio.offset) && uio.resid > 0)
      ensures err == Ok && n > 0 ==> Low(old(uio.offset)) < MAXBYTES
    {
      ghost var a := Now(uio);
      ghost var f := vnodes[k].ino;
      err, n := Transfer(k, uio);
      ghost var b := Now(uio);
      Known(k);
      GrowTo(k, uio.offset);
      WroteThenSized(a, b, Now(uio), f, n);
    }
  }

  lemma SizeKeeps(inodes: map<nat, Inode>, disk: Disk, marked: set<nat>, f: nat, size: nat)
    requires RolesOK(inodes, disk, marked) && f in inodes && size < WORD
    ensures var inodes' := inodes[f := inodes[f].(size := size)];
      && RolesOK(inodes', disk, marked)
      && SameContents(inodes, disk, inodes', disk) && SameRoles(inodes, disk, inodes', disk)
  {
    var inodes' := inodes[f := inodes[f].(size := size)];
    forall p ensures BlockAt(inodes', disk, p) == BlockAt(inodes, disk, p) { }
    RolesKept(inodes, disk, marked, inodes', disk, marked);
    forall g, x: nat | g in inodes ensures Content(inodes'[g], disk, x) == Content(inodes[g], disk, x) { }
  }

  lemma RangeInBlock(i: Inode, disk: Disk, b: nat, iobuf: seq<byte>, at: nat, len: nat)
    requires DiskOK(disk) && b == Slot(i, disk, at / BLOCK) && (b != 0 ==> b < |disk|) && at % BLOCK + len <= BLOCK
    requires iobuf == if b == 0 then Zeros(BLOCK) else disk[b]
    ensures |iobuf| == BLOCK && iobuf[at % BLOCK..at % BLOCK + len] == Range(i, disk, at, len)
  {
    var part, range := iobuf[at % BLOCK..at % BLOCK + len], Range(i, disk, at, len);
    forall k | 0 <= k < len ensures part[k] == range[k] {
      assert (at + k) / BLOCK == at / BLOCK && (at + k) % BLOCK == at % BLOCK + k;
      assert range[k] == Content(i, disk, at + k);
    }
  }

  lemma NotAnInode(inodes: map<nat, Inode>, disk: Disk, marked: set<nat>, p: Place)
    requires RolesOK(inodes, disk, marked) && BlockAt(inodes, disk, p) != 0 && !p.Ino?
    ensures BlockAt(inodes, disk, p) !in inodes && BlockAt(inodes, disk, p) < |disk|
  {
    assert forall f :: f in inodes ==> BlockAt(inodes, disk, Ino(f)) == f;
  }
}
