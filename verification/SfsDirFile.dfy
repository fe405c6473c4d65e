/** The directory as a file: reading and writing its entries, looking up a name, and the
    linking and unlinking of names, with what all that leaves alone. */
module SfsDirFile {

  import opened Bytes
  import opened SfsModel
  import opened SfsTransfer
  import opened SfsDirModel
  import opened Uio
  import opened Sfs

  datatype DirError = DirOk | ENoSpace | EFileTooBig | EExist | ENameTooLong | ENoEntry

  function FromError(e: Error): DirError {
    match e case Ok => DirOk case NoSpace => ENoSpace case FileTooBig => EFileTooBig
  }

  ghost predicate IsDir(v: Volume, d: nat)
    reads v
  {
    v.Valid() && d < |v.vnodes| && v.vnodes[d].ino == ROOT && RootOK(v.inodes)
  }

  ghost function Dir(v: Volume): seq<Entry>
    requires ROOT in v.inodes
    reads v
  {
    Entries(v.inodes[ROOT], v.disk)
  }

  // ------------------------------------------------------------- what stays as it is

  /** The same bytes, and the same size and type. */
  ghost predicate SameBytes(i: Inode, disk: Disk, i': Inode, disk': Disk) {
    i'.size == i.size && i'.kind == i.kind && forall x: nat :: Content(i', disk', x) == Content(i, disk, x)
  }

  ghost predicate SameFile(i: Inode, disk: Disk, i': Inode, disk': Disk) {
    SameBytes(i, disk, i', disk') && i'.links == i.links
  }

  /** All files but those are as they were. */
  ghost predicate Others(inodes: map<nat, Inode>, disk: Disk, inodes': map<nat, Inode>, disk': Disk, but: set<nat>) {
    forall g :: g in inodes && g !in but ==> g in inodes' && SameFile(inodes[g], disk, inodes'[g], disk')
  }

  /** All files but the directory have their bytes; f has d links more, no other any. */
  ghost predicate OnlyLinks(inodes: map<nat, Inode>, disk: Disk, inodes': map<nat, Inode>, disk': Disk, f: nat,
      d: int)
  {
    && inodes'.Keys == inodes.Keys
    && forall g :: g in inodes && g != ROOT ==>
         SameBytes(inodes[g], disk, inodes'[g], disk') && inodes'[g].links == inodes[g].links + if g == f then d else 0
  }

  lemma OnlyLinksTwice(i0: map<nat, Inode>, d0: Disk, i1: map<nat, Inode>, d1: Disk, i2: map<nat, Inode>, d2: Disk,
      f: nat, m: int, n: int)
    requires OnlyLinks(i0, d0, i1, d1, f, m) && OnlyLinks(i1, d1, i2, d2, f, n)
    ensures OnlyLinks(i0, d0, i2, d2, f, m + n)
  {
    forall g | g in i0 && g != ROOT ensures SameBytes(i0[g], d0, i2[g], d2) {
      assert SameBytes(i0[g], d0, i1[g], d1) && SameBytes(i1[g], d1, i2[g], d2);
    }
  }

  /** A write to the directory alone. */
  lemma WriteOnlyDir(a: Snap, b: Snap, n: nat, f: nat)
    requires WroteFile(a, b, ROOT, n)
    ensures OnlyLinks(a.inodes, a.disk, b.inodes, b.disk, f, 0)
  {
    forall g | g in a.inodes && g != ROOT ensures SameBytes(a.inodes[g], a.disk, b.inodes[g], b.disk) {
      forall x: nat ensures Content(b.inodes[g], b.disk, x) == Content(a.inodes[g], a.disk, x) {
        assert Content(b.inodes[g], b.disk, x) == Splice(a.inodes[g], a.disk, false, Low(a.offset), a.pending[..n], x);
      }
    }
  }

  // ------------------------------------------------------------ reading and writing

  /** Where an entry lies: at an offset that 32-bit block numbers reach. */
  lemma EntryPlace(s: nat)
    requires s * ENTRY <= MAXBYTES
    ensures Low(s * ENTRY) == s * ENTRY
    ensures s * ENTRY < MAXBYTES ==> s * ENTRY + ENTRY <= MAXBYTES
  {
  }

  /** And within one block, so that it is transferred as a whole or not at all. */
  lemma NoPartialEntry(s: nat, n: nat)
    requires n < ENTRY && (n == 0 || Aligned(s * ENTRY + n))
    ensures n == 0
  {
    BlockOffIs(s * ENTRY + n);
    var k := 8 * ((s * ENTRY + n) / BLOCK) - s;
    assert n != 0 ==> n == ENTRY * k;
  }

  lemma ReadEntry(a: Snap, b: Snap, s: nat)
    requires Moved(a, b, false, ROOT, ENTRY) && a.stored == [] && a.offset == s * ENTRY && s * ENTRY <= MAXBYTES
    ensures |b.stored| == ENTRY && Parse(b.stored) == EntryAt(a.inodes[ROOT], a.disk, s)
  {
    EntryPlace(s);
    assert b.stored == Range(a.inodes[ROOT], a.disk, s * ENTRY, ENTRY);
  }

  /** sfs_readdir. */
  method ReadDir(v: Volume, d: nat, s: nat) returns (e: seq<byte>)
    requires IsDir(v, d) && s < v.inodes[ROOT].size / ENTRY
    modifies v
    ensures v.Valid() && v.inodes == old(v.inodes) && v.disk == old(v.disk) && v.marked == old(v.marked)
    ensures v.vnodes == old(v.vnodes)
    ensures |e| == ENTRY && Parse(e) == Dir(v)[s]
  {
    EntryPlace(s);
    v.Known(d);
    var uio := new Uio.Kinit(false, ENTRY, [], s * ENTRY);
    ghost var a := v.Now(uio);
    var err;
    ghost var n;
    err, n := v.IoRead(d, uio);
    if err != Ok { NoPartialEntry(s, n); }
    assert err == Ok;
    e := uio.Stored();
    ReadEntry(a, v.Now(uio), s);
  }

  lemma WroteEntry(a: Snap, b: Snap, s: nat, e: seq<byte>)
    requires RootOK(a.inodes) && s <= a.inodes[ROOT].size / ENTRY && |e| == ENTRY
    requires WroteFile(a, b, ROOT, ENTRY) && a.pending == e && a.offset == s * ENTRY && s * ENTRY < MAXBYTES
    ensures RootOK(b.inodes)
    ensures Entries(b.inodes[ROOT], b.disk) == Put(Entries(a.inodes[ROOT], a.disk), s, Parse(e))
  {
    EntryPlace(s);
    assert a.pending[..ENTRY] == e;
    EntryPut(a.inodes[ROOT], a.disk, b.inodes[ROOT], b.disk, s, e);
  }

  lemma WroteNothing(a: Snap, b: Snap, s: nat)
    requires RootOK(a.inodes) && s <= a.inodes[ROOT].size / ENTRY && WroteFile(a, b, ROOT, 0) && a.offset == s * ENTRY
    ensures RootOK(b.inodes) && SameBytes(a.inodes[ROOT], a.disk, b.inodes[ROOT], b.disk)
    ensures Entries(b.inodes[ROOT], b.disk) == Entries(a.inodes[ROOT], a.disk)
  {
    forall x: nat ensures Content(b.inodes[ROOT], b.disk, x) == Content(a.inodes[ROOT], a.disk, x) {
      assert a.pending[..0] == [];
    }
    SameEntries(a.inodes[ROOT], a.disk, b.inodes[ROOT], b.disk);
  }

  /** What a write of an entry comes to. */
  lemma WriteDone(a: Snap, b: Snap, s: nat, e: seq<byte>, ok: bool, n: nat)
    requires RootOK(a.inodes) && s <= a.inodes[ROOT].size / ENTRY && |e| == ENTRY
    requires WroteFile(a, b, ROOT, n) && a.pending == e && a.offset == s * ENTRY && n == (if ok then ENTRY else 0)
    requires ok ==> Low(s * ENTRY) < MAXBYTES
    ensures RootOK(b.inodes) && (!ok ==> SameBytes(a.inodes[ROOT], a.disk, b.inodes[ROOT], b.disk))
    ensures Entries(b.inodes[ROOT], b.disk) ==
      if ok then Put(Entries(a.inodes[ROOT], a.disk), s, Parse(e)) else Entries(a.inodes[ROOT], a.disk)
  {
    EntryPlace(s);
    if ok { WroteEntry(a, b, s, e); } else { WroteNothing(a, b, s); }
  }

  /** Writing over a live entry needs no space, and is within reach. */
  lemma LiveNeverFails(i: Inode, disk: Disk, s: nat, err: Error)
    requires EntryAt(i, disk, s).ino != 0 && s * ENTRY <= MAXBYTES
    requires err == NoSpace ==> Slot(i, disk, Low(s * ENTRY) / BLOCK) == 0
    requires err == FileTooBig ==> Low(s * ENTRY) >= MAXBYTES
    ensures err == Ok
  {
    EntryPlace(s);
    LiveIsMapped(i, disk, s);
  }

  lemma SameEntry(i: Inode, disk: Disk, i': Inode, disk': Disk, s: nat)
    requires SameBytes(i, disk, i', disk')
    ensures EntryAt(i', disk', s) == EntryAt(i, disk, s)
  {
    assert Range(i', disk', s * ENTRY, ENTRY) == Range(i, disk, s * ENTRY, ENTRY);
  }

  /** A write of an entry from a kernel buffer, as a transfer. */
  method PutEntry(v: Volume, d: nat, s: nat, e: seq<byte>) returns (err: Error, ghost a: Snap, ghost b: Snap)
    requires IsDir(v, d) && s <= v.inodes[ROOT].size / ENTRY && |e| == ENTRY
    modifies v
    ensures v.Valid() && SameVnodes(old(v.vnodes), v.vnodes)
    ensures a.inodes == old(v.inodes) && a.disk == old(v.disk) && b.inodes == v.inodes && b.disk == v.disk
    ensures WroteFile(a, b, ROOT, if err == Ok then ENTRY else 0) && a.offset == s * ENTRY && a.pending == e
    ensures err == Ok ==> Low(s * ENTRY) < MAXBYTES
    ensures err == NoSpace ==> Slot(v.vnodes[d].inode, v.disk, Low(s * ENTRY) / BLOCK) == 0
    ensures err == FileTooBig ==> Low(s * ENTRY) >= MAXBYTES
  {
    EntryPlace(s);
    var uio := new Uio.Kinit(true, ENTRY, e, s * ENTRY);
    a := v.Now(uio);
    ghost var n;
    err, n := v.IoWrite(d, uio);
    if err != Ok { NoPartialEntry(s, n); }
    b := v.Now(uio);
  }

  /** sfs_writedir: into a slot or the one past the last. */
  method WriteDir(v: Volume, d: nat, s: nat, e: seq<byte>) returns (err: Error)
    requires IsDir(v, d) && s <= v.inodes[ROOT].size / ENTRY && |e| == ENTRY
    modifies v
    ensures IsDir(v, d) && SameVnodes(old(v.vnodes), v.vnodes)
    ensures forall f: nat :: OnlyLinks(old(v.inodes), old(v.disk), v.inodes, v.disk, f, 0)
    ensures Dir(v) == if err == Ok then Put(old(Dir(v)), s, Parse(e)) else old(Dir(v))
    ensures s < |old(Dir(v))| && old(Dir(v))[s].ino != 0 ==> err == Ok
  {
    EntryPlace(s);
    ghost var a, b;
    err, a, b := PutEntry(v, d, s, e);
    WriteDone(a, b, s, e, err == Ok, if err == Ok then ENTRY else 0);
    forall f: nat ensures OnlyLinks(a.inodes, a.disk, b.inodes, b.disk, f, 0) {
      WriteOnlyDir(a, b, if err == Ok then ENTRY else 0, f);
    }
    v.Known(d);
    if err != Ok && s < |old(Dir(v))| && old(Dir(v))[s].ino != 0 {
      SameEntry(a.inodes[ROOT], a.disk, b.inodes[ROOT], b.disk, s);
      LiveNeverFails(b.inodes[ROOT], b.disk, s, err);
    }
  }

  // ------------------------------------------------------------------ looking up

  /** What a search of the directory says. */
  datatype Found = Found(found: bool, slot: nat, ino: nat, emptyslot: int)

  ghost predicate Searched(d: seq<Entry>, n: nat, name: seq<byte>, f: Found)
    requires n <= |d|
  {
    && (f.found ==> f.slot < n && d[f.slot] == Entry(f.ino, name) && f.ino != 0)
    && (!f.found ==> forall s :: 0 <= s < n && d[s].ino != 0 ==> d[s].name != name)
    && (if f.emptyslot < 0 then forall s :: 0 <= s < n ==> d[s].ino != 0
        else f.emptyslot < n && d[f.emptyslot].ino == 0)
  }

  lemma SearchStep(d: seq<Entry>, n: nat, name: seq<byte>, f: Found)
    requires Distinct(d) && n < |d| && Searched(d, n, name, f)
    ensures d[n].ino != 0 && d[n].name == name ==>
            !f.found && Searched(d, n + 1, name, Found(true, n, d[n].ino, f.emptyslot))
    ensures d[n].ino == 0 ==> Searched(d, n + 1, name, f.(emptyslot := n))
    ensures d[n].ino != 0 && d[n].name != name ==> Searched(d, n + 1, name, f)
  {
  }

  /** sfs_dir_findname. */
  method FindName(v: Volume, d: nat, name: seq<byte>) returns (f: Found)
    requires IsDir(v, d) && Distinct(Dir(v))
    modifies v
    ensures v.Valid() && v.inodes == old(v.inodes) && v.disk == old(v.disk) && v.marked == old(v.marked)
    ensures v.vnodes == old(v.vnodes)
    ensures Searched(Dir(v), |Dir(v)|, name, f)
  {
    f := Found(false, 0, 0, -1);
    v.Known(d);
    var nentries := v.vnodes[d].inode.size / ENTRY;
    for i := 0 to nentries
      invariant v.Valid() && v.inodes == old(v.inodes) && v.disk == old(v.disk) && v.marked == old(v.marked)
      invariant v.vnodes == old(v.vnodes)
      invariant Searched(Dir(v), i, name, f)
    {
      SearchStep(Dir(v), i, name, f);
      var e := ReadDir(v, d, i);
      var tsd := Parse(e);
      if tsd.ino == 0 {
        f := f.(emptyslot := i);
      } else if tsd.name == name {
        assert !f.found;
        f := Found(true, i, tsd.ino, f.emptyslot);
      }
    }
  }

  // ----------------------------------------------------------- linking and unlinking

  /** The name is in a slot that was free, or at the end; every other slot is as it was. */
  ghost predicate AddedAt(d: seq<Entry>, d': seq<Entry>, slot: nat, e: Entry) {
    slot <= |d| && (slot < |d| ==> d[slot].ino == 0) && d' == Put(d, slot, e)
  }

  /** sfs_dir_link: the name, if it is new and fits, in a free slot or at the end. */
  method DirLink(v: Volume, d: nat, name: seq<byte>, ino: nat) returns (err: DirError, slot: nat)
    requires IsDir(v, d) && Distinct(Dir(v)) && NoNul(name) && ino < WORD
    modifies v
    ensures IsDir(v, d) && SameVnodes(old(v.vnodes), v.vnodes)
    ensures forall f: nat :: OnlyLinks(old(v.inodes), old(v.disk), v.inodes, v.disk, f, 0)
    ensures err != DirOk ==> Dir(v) == old(Dir(v))
    ensures err == DirOk ==> AddedAt(old(Dir(v)), Dir(v), slot, Entry(ino, name)) && Unused(old(Dir(v)), name)
    ensures err == EExist <==> !Unused(old(Dir(v)), name)
    ensures err == ENameTooLong <==> Unused(old(Dir(v)), name) && |name| + 1 > NAMELEN
    ensures err != ENoEntry
  {
    var f := FindName(v, d, name);
    slot := 0;
    if f.found { return EExist, 0; }
    if |name| + 1 > NAMELEN { return ENameTooLong, 0; }
    v.Known(d);
    slot := if f.emptyslot < 0 then v.vnodes[d].inode.size / ENTRY else f.emptyslot;
    EntryRoundTrip(ino, name);
    var e := WriteDir(v, d, slot, Unparse(ino, name));
    err := FromError(e);
  }

  const FREE := Entry(0, [])

  /** sfs_dir_unlink, of a slot in use. */
  method DirUnlink(v: Volume, d: nat, slot: nat)
    requires IsDir(v, d) && slot < |Dir(v)| && Dir(v)[slot].ino != 0
    modifies v
    ensures IsDir(v, d) && SameVnodes(old(v.vnodes), v.vnodes)
    ensures forall f: nat :: OnlyLinks(old(v.inodes), old(v.disk), v.inodes, v.disk, f, 0)
    ensures Dir(v) == old(Dir(v))[slot := FREE]
  {
    var sd := Cleared();
    var err := WriteDir(v, d, slot, sd);
  }

  method Cleared() returns (e: seq<byte>)
    ensures |e| == ENTRY && Parse(e) == FREE
  {
    e := Zeros(ENTRY);
    ZeroEntry(e);
  }

  /** A cleared entry is a free one. */
  lemma ZeroEntry(e: seq<byte>)
    requires |e| == ENTRY && forall i :: 0 <= i < ENTRY ==> e[i] == 0
    ensures Parse(e) == FREE
  {
    var name := e[4..ENTRY - 1];
    assert name[0] == 0;
  }
}
