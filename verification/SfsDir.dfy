/** The operations on the names of a volume: creating, linking, removing and renaming
    files, with what each does to the file concerned and what it leaves alone. */
module SfsDir {

  import opened Bytes
  import opened Linking
  import opened SfsModel
  import opened SfsTransfer
  import opened SfsDirModel
  import opened SfsDirFile
  import opened Sfs
  import opened SfsRefs
  import opened SfsTruncate
  import opened SfsVnodes

  // ---------------------------------------------------------- counting the links

  lemma LinksKeep(inodes: map<nat, Inode>, disk: Disk, marked: set<nat>, f: nat, links: nat)
    requires RolesOK(inodes, disk, marked) && f in inodes && links < 0x1_0000
    ensures var inodes' := inodes[f := inodes[f].(links := links)];
      && RolesOK(inodes', disk, marked) && SameRoles(inodes, disk, inodes', disk)
      && forall g, x: nat :: g in inodes ==> Content(inodes'[g], disk, x) == Content(inodes[g], disk, x)
  {
    var inodes' := inodes[f := inodes[f].(links := links)];
    forall p ensures BlockAt(inodes', disk, p) == BlockAt(inodes, disk, p) { }
    RolesKept(inodes, disk, marked, inodes', disk, marked);
    forall g, x: nat | g in inodes ensures Content(inodes'[g], disk, x) == Content(inodes[g], disk, x) { }
  }

  /** The link count of a file in memory. */
  method SetLinks(v: Volume, k: nat, links: nat)
    requires v.Valid() && k < |v.vnodes| && links < 0x1_0000
    modifies v`vnodes, v`inodes
    ensures v.Valid() && SameVnodes(old(v.vnodes), v.vnodes)
    ensures v.vnodes[k].inode == old(v.vnodes[k].inode).(links := links)
    ensures v.inodes == old(v.inodes)[v.vnodes[k].ino := v.vnodes[k].inode]
    ensures forall g, x: nat :: g in v.inodes && g in old(v.inodes) ==>
              Content(v.inodes[g], v.disk, x) == Content(old(v.inodes)[g], v.disk, x)
  {
    var i := v.vnodes[k].inode.(links := links);
    v.Facts();
    LinksKeep(v.inodes, v.disk, v.marked, v.vnodes[k].ino, links);
    AccountedKept(v.inodes, v.disk, v.marked, v.reserved, v.inodes[v.vnodes[k].ino := i], v.disk);
    VnodeChanged(v.vnodes, v.inodes, v.disk, k, i);
    v.inodes := v.inodes[v.vnodes[k].ino := i];
    v.vnodes := Changed(v.vnodes, k, i);
    v.Seal();
  }

  lemma LinkCounted(inodes: map<nat, Inode>, disk: Disk, inodes': map<nat, Inode>, disk': Disk, d: seq<Entry>,
      slot: nat, f: nat, name: seq<byte>)
    requires LinksOK(inodes, d, 0, 0) && OnlyLinks(inodes, disk, inodes', disk', f, 0) && f in inodes && f != ROOT
    requires 0 !in inodes
    requires slot <= |d| && (slot < |d| ==> d[slot].ino == 0)
    ensures LinksOK(inodes', Put(d, slot, Entry(f, name)), f, 1)
  {
    var d' := Put(d, slot, Entry(f, name));
    forall g | g in inodes' && g != ROOT ensures inodes'[g].links + (if g == f then 1 else 0) == Count(d', g) {
      CountPut(d, slot, Entry(f, name), g);
      assert SameBytes(inodes[g], disk, inodes'[g], disk');
    }
  }

  lemma UnlinkCounted(inodes: map<nat, Inode>, disk: Disk, inodes': map<nat, Inode>, disk': Disk, d: seq<Entry>,
      slot: nat, f: nat)
    requires LinksOK(inodes, d, 0, 0) && OnlyLinks(inodes, disk, inodes', disk', f, 0) && 0 !in inodes && slot < |d|
    requires d[slot].ino == f != 0
    ensures LinksOK(inodes', d[slot := FREE], f, -1)
  {
    var d' := d[slot := FREE];
    assert d' == Put(d, slot, FREE);
    forall g | g in inodes' && g != ROOT ensures inodes'[g].links + (if g == f then -1 else 0) == Count(d', g) {
      CountPut(d, slot, FREE, g);
      assert SameBytes(inodes[g], disk, inodes'[g], disk');
    }
  }

  /** Setting the count right. */
  lemma CountSet(inodes: map<nat, Inode>, d: seq<Entry>, f: nat, more: int)
    requires LinksOK(inodes, d, f, more) && f in inodes && f != ROOT
    ensures Count(d, f) == inodes[f].links + more
    ensures LinksOK(inodes[f := inodes[f].(links := Count(d, f))], d, 0, 0)
  {
  }

  lemma FewLinks(inodes: map<nat, Inode>, disk: Disk, f: nat)
    requires RootOK(inodes)
    ensures Count(Entries(inodes[ROOT], disk), f) < 0x1_0000
  {
    CountBound(Entries(inodes[ROOT], disk), f);
  }

  /** The count of a file in memory is set to the number of slots naming it. */
  method Recount(v: Volume, k: nat, links: nat, ghost more: int)
    requires v.Valid() && k < |v.vnodes| && v.vnodes[k].ino != ROOT && DirBut(v.inodes, v.disk, v.vnodes[k].ino, more)
    requires links == v.vnodes[k].inode.links + more
    modifies v`vnodes, v`inodes
    ensures v.Valid() && SameVnodes(old(v.vnodes), v.vnodes) && DirOK(v.inodes, v.disk) && Dir(v) == old(Dir(v))
    ensures OnlyLinks(old(v.inodes), v.disk, v.inodes, v.disk, v.vnodes[k].ino, more)
  {
    v.Known(k);
    FewLinks(v.inodes, v.disk, v.vnodes[k].ino);
    CountSet(v.inodes, Dir(v), v.vnodes[k].ino, more);
    SetLinks(v, k, links);
  }

  // --------------------------------------------------------- linking and unlinking files

  /** Linking a file and counting the link. */
  method LinkFile(v: Volume, d: nat, name: seq<byte>, k: nat) returns (err: DirError, slot: nat)
    requires IsDir(v, d) && DirOK(v.inodes, v.disk) && NoNul(name) && k < |v.vnodes| && v.vnodes[k].ino != ROOT
    modifies v
    ensures IsDir(v, d) && DirOK(v.inodes, v.disk) && SameVnodes(old(v.vnodes), v.vnodes)
    ensures OnlyLinks(old(v.inodes), old(v.disk), v.inodes, v.disk, v.vnodes[k].ino, if err == DirOk then 1 else 0)
    ensures err != DirOk ==> Dir(v) == old(Dir(v))
    ensures err == DirOk ==> AddedAt(old(Dir(v)), Dir(v), slot, Entry(v.vnodes[k].ino, name))
    ensures err == EExist <==> !Unused(old(Dir(v)), name)
    ensures err == ENameTooLong <==> Unused(old(Dir(v)), name) && |name| + 1 > NAMELEN
    ensures err != ENoEntry
  {
    ghost var is0, disk0, dir0 := v.inodes, v.disk, Dir(v);
    var f := v.vnodes[k].ino;
    InodeNumber(v, k);
    err, slot := DirLink(v, d, name, f);
    ghost var is1, disk1 := v.inodes, v.disk;
    assert OnlyLinks(is0, disk0, is1, disk1, f, 0);
    if err == DirOk {
      LinkCounted(is0, disk0, v.inodes, v.disk, dir0, slot, f, name);
      PutDistinct(dir0, slot, Entry(f, name));
      Recount(v, k, v.vnodes[k].inode.links + 1, 1);
      OnlyLinksTwice(is0, disk0, is1, disk1, v.inodes, v.disk, f, 0, 1);
    } else {
      StillDir(is0, disk0, is1, disk1, f);
    }
  }

  lemma InodeNumber(v: Volume, k: nat)
    requires v.Valid() && k < |v.vnodes|
    ensures v.vnodes[k].ino < WORD && v.vnodes[k].ino in v.inodes && v.vnodes[k].ino != 0
  {
    v.Facts();
    assert BlockAt(v.inodes, v.disk, Ino(v.vnodes[k].ino)) == v.vnodes[k].ino;
  }

  /** The same entries and the same links. */
  lemma StillDir(inodes: map<nat, Inode>, disk: Disk, inodes': map<nat, Inode>, disk': Disk, f: nat)
    requires DirOK(inodes, disk) && OnlyLinks(inodes, disk, inodes', disk', f, 0) && RootOK(inodes')
    requires Entries(inodes'[ROOT], disk') == Entries(inodes[ROOT], disk)
    ensures DirOK(inodes', disk')
  {
    forall g | g in inodes' && g != ROOT
      ensures inodes'[g].kind == inodes[g].kind && inodes'[g].links == inodes[g].links
    {
      assert SameBytes(inodes[g], disk, inodes'[g], disk');
    }
  }

  /** Unlinking a slot and uncounting the link. */
  method UnlinkFile(v: Volume, d: nat, slot: nat, k: nat)
    requires IsDir(v, d) && DirOK(v.inodes, v.disk) && k < |v.vnodes| && v.vnodes[k].ino != ROOT
    requires slot < |Dir(v)| && Dir(v)[slot].ino == v.vnodes[k].ino
    modifies v
    ensures IsDir(v, d) && DirOK(v.inodes, v.disk) && SameVnodes(old(v.vnodes), v.vnodes)
    ensures OnlyLinks(old(v.inodes), old(v.disk), v.inodes, v.disk, v.vnodes[k].ino, -1)
    ensures Dir(v) == old(Dir(v))[slot := FREE]
  {
    ghost var is0, disk0, dir0 := v.inodes, v.disk, Dir(v);
    var f := v.vnodes[k].ino;
    InodeNumber(v, k);
    CountBound(dir0, f);
    DirUnlink(v, d, slot);
    ghost var is1, disk1 := v.inodes, v.disk;
    assert OnlyLinks(is0, disk0, is1, disk1, f, 0);
    UnlinkCounted(is0, disk0, is1, disk1, dir0, slot, f);
    PutDistinct(dir0, slot, FREE);
    assert Put(dir0, slot, FREE) == dir0[slot := FREE];
    v.Known(k);
    CountSet(is1, Dir(v), f, -1);
    Recount(v, k, v.vnodes[k].inode.links - 1, -1);
    OnlyLinksTwice(is0, disk0, is1, disk1, v.inodes, v.disk, f, 0, -1);
  }

  // ------------------------------------------------------------- dropping a reference

  /** Dropping a reference, even the last of a file with no links, leaves the directory. */
  lemma DropKeepsDir(inodes: map<nat, Inode>, disk: Disk, marked: set<nat>, inodes': map<nat, Inode>, disk': Disk,
                     marked': set<nat>, f: nat, last: bool)
    requires DirOK(inodes, disk) && Dropped(inodes, disk, marked, inodes', disk', marked', f, last)
    ensures DirOK(inodes', disk') && Entries(inodes'[ROOT], disk') == Entries(inodes[ROOT], disk)
  {
    SameEntries(inodes[ROOT], disk, inodes'[ROOT], disk');
    var d := Entries(inodes[ROOT], disk);
    if last && inodes[f].links == 0 {
      CountBound(d, f);
    }
  }

  /** And it leaves all other files, and f itself unless f is erased. */
  lemma DropKeepsFiles(inodes: map<nat, Inode>, disk: Disk, marked: set<nat>, inodes': map<nat, Inode>, disk': Disk,
                       marked': set<nat>, f: nat, last: bool)
    requires Dropped(inodes, disk, marked, inodes', disk', marked', f, last)
    ensures Others(inodes, disk, inodes', disk', if last && inodes[f].links == 0 then {f} else {})
    ensures inodes'.Keys == inodes.Keys - if last && inodes[f].links == 0 then {f} else {}
  {
    forall g | g in inodes && g in inodes' ensures SameFile(inodes[g], disk, inodes'[g], disk') { }
  }

  /** DecRef on a file or on the directory itself, seen from the directory. */
  method DropFile(v: Volume, k: nat)
    requires v.Valid() && DirOK(v.inodes, v.disk) && k < |v.vnodes|
    modifies v
    ensures v.Valid() && DirOK(v.inodes, v.disk) && Dir(v) == old(Dir(v))
    ensures RefsMoved(old(v.vnodes), v.vnodes, old(v.vnodes[k].ino), -1)
    ensures var last := old(v.vnodes[k].refs) == 1 && old(v.vnodes[k].inode.links) == 0;
      var gone := if last then {old(v.vnodes[k].ino)} else {};
      && Others(old(v.inodes), old(v.disk), v.inodes, v.disk, gone) && v.inodes.Keys == old(v.inodes).Keys - gone
    ensures forall j :: 0 <= j < k && j < |v.vnodes| ==> v.vnodes[j].ino == old(v.vnodes)[j].ino
    ensures |v.vnodes| >= |old(v.vnodes)| - 1
  {
    ghost var i0, d0, m0, f, last := v.inodes, v.disk, v.marked, v.vnodes[k].ino, v.vnodes[k].refs == 1;
    v.Known(k);
    DecRef(v, k);
    DropKeepsDir(i0, d0, m0, v.inodes, v.disk, v.marked, f, last);
    DropKeepsFiles(i0, d0, m0, v.inodes, v.disk, v.marked, f, last);
  }

  /** The number of references in a vnode is that of all there are. */
  lemma AllRefs(v: Volume, k: nat)
    requires v.Valid() && k < |v.vnodes|
    ensures v.vnodes[k].refs == Refs(v.vnodes, v.vnodes[k].ino) > 0
  {
    v.Facts();
    RefsAt(v.vnodes, k);
  }

  lemma OnlyLinksOthers(inodes: map<nat, Inode>, disk: Disk, inodes': map<nat, Inode>, disk': Disk, f: nat, d: int)
    requires OnlyLinks(inodes, disk, inodes', disk', f, d)
    ensures Others(inodes, disk, inodes', disk', if d == 0 then {ROOT} else {ROOT, f})
  {
    forall g | g in inodes && g != ROOT && (d == 0 || g != f) ensures SameFile(inodes[g], disk, inodes'[g], disk') {
      assert SameBytes(inodes[g], disk, inodes'[g], disk');
    }
  }

  lemma OthersTwice(i0: map<nat, Inode>, d0: Disk, i1: map<nat, Inode>, d1: Disk, i2: map<nat, Inode>, d2: Disk,
      a: set<nat>, b: set<nat>)
    requires Others(i0, d0, i1, d1, a) && Others(i1, d1, i2, d2, b)
    ensures Others(i0, d0, i2, d2, a + b)
  {
    forall g | g in i0 && g !in a + b ensures g in i2 && SameFile(i0[g], d0, i2[g], d2) {
      assert SameFile(i0[g], d0, i1[g], d1) && SameFile(i1[g], d1, i2[g], d2);
    }
  }

  // ------------------------------------------------------------------ the operations

  /** sfs_lookonce: the slot of a name and the vnode of its file, referenced once more. */
  method LookOnce(v: Volume, d: nat, name: seq<byte>) returns (found: bool, slot: nat, k: nat)
    requires IsDir(v, d) && DirOK(v.inodes, v.disk)
    modifies v
    ensures IsDir(v, d) && v.inodes == old(v.inodes) && v.disk == old(v.disk) && v.marked == old(v.marked)
    ensures found <==> !Unused(Dir(v), name)
    ensures !found ==> v.vnodes == old(v.vnodes)
    ensures found ==> slot < |Dir(v)| && k < |v.vnodes| && Dir(v)[slot] == Entry(v.vnodes[k].ino, name)
    ensures found ==> v.vnodes[k].ino != ROOT && v.vnodes[k].ino in v.inodes && v.inodes[v.vnodes[k].ino].links > 0
    ensures found ==> RefsMoved(old(v.vnodes), v.vnodes, v.vnodes[k].ino, 1)
  {
    var f := FindName(v, d, name);
    found, slot, k := f.found, f.slot, 0;
    if found {
      assert Dir(v)[slot].ino == f.ino;
      CountBound(Dir(v), f.ino);
      k := LoadVnode(v, f.ino);
    }
  }

  lemma NewFileInDir(inodes: map<nat, Inode>, disk: Disk, inodes': map<nat, Inode>, disk': Disk, f: nat)
    requires DirOK(inodes, disk) && NewFile(inodes, disk, inodes', disk', f, FILE) && f != 0
    ensures DirOK(inodes', disk') && Entries(inodes'[ROOT], disk') == Entries(inodes[ROOT], disk)
    ensures Others(inodes, disk, inodes', disk', {})
  {
    SameEntries(inodes[ROOT], disk, inodes'[ROOT], disk');
    CountBound(Entries(inodes[ROOT], disk), f);
    forall g | g in inodes ensures SameFile(inodes[g], disk, inodes'[g], disk') { }
  }

  /** A file without a byte. */
  ghost predicate EmptyFile(i: Inode, disk: Disk) {
    i.size == 0 && i.kind == FILE && forall x: nat :: Content(i, disk, x) == 0
  }

  lemma FreshIsEmpty(i: Inode, disk: Disk)
    requires IsEmpty(i.(kind := 0)) && i.kind == FILE
    ensures EmptyFile(i, disk) && i.links == 0
  {
    forall x: nat ensures Content(i, disk, x) == 0 { assert Slot(i, disk, x / BLOCK) == 0; }
  }

  method NewObject(v: Volume, d: nat) returns (e: Error, k: nat)
    requires IsDir(v, d) && DirOK(v.inodes, v.disk)
    modifies v
    ensures IsDir(v, d) && DirOK(v.inodes, v.disk) && Dir(v) == old(Dir(v)) && (e == Ok || e == NoSpace)
    ensures Others(old(v.inodes), old(v.disk), v.inodes, v.disk, {})
    ensures e != Ok ==> v.inodes == old(v.inodes) && v.vnodes == old(v.vnodes)
    ensures e == Ok ==> d < k < |v.vnodes| && v.vnodes[k].refs == 1 && v.vnodes[k].ino != ROOT
    ensures e == Ok ==> v.vnodes[k].ino !in old(v.inodes) && v.inodes.Keys == old(v.inodes).Keys + {v.vnodes[k].ino}
    ensures e == Ok ==> EmptyFile(v.inodes[v.vnodes[k].ino], v.disk) && v.inodes[v.vnodes[k].ino].links == 0
    ensures e == Ok ==> RefsMoved(old(v.vnodes), v.vnodes, v.vnodes[k].ino, 1)
  {
    ghost var is0, disk0 := v.inodes, v.disk;
    e, k := MakeObj(v, FILE);
    if e == Ok {
      assert v.vnodes[..k][d] == v.vnodes[d];
      InodeNumber(v, k);
      NewFileInDir(is0, disk0, v.inodes, v.disk, v.vnodes[k].ino);
      FreshIsEmpty(v.inodes[v.vnodes[k].ino], v.disk);
    }
  }

  /** Linking a new file; on a failure, giving it back. */
  method LinkNew(v: Volume, d: nat, name: seq<byte>, k: nat) returns (err: DirError, slot: nat)
    requires IsDir(v, d) && DirOK(v.inodes, v.disk) && NoNul(name) && Unused(Dir(v), name) && d < k < |v.vnodes|
    requires v.vnodes[k].ino != ROOT && v.vnodes[k].refs == 1 && v.vnodes[k].ino in v.inodes
    requires v.inodes[v.vnodes[k].ino].links == 0
    modifies v
    ensures IsDir(v, d) && DirOK(v.inodes, v.disk) && err != EExist && (err == ENameTooLong ==> |name| + 1 > NAMELEN)
    ensures err == DirOk ==>
            SameVnodes(old(v.vnodes), v.vnodes) && AddedAt(old(Dir(v)), Dir(v), slot, Entry(v.vnodes[k].ino, name))
    ensures err == DirOk ==> OnlyLinks(old(v.inodes), old(v.disk), v.inodes, v.disk, old(v.vnodes[k].ino), 1)
    ensures err != DirOk ==> Dir(v) == old(Dir(v)) && v.inodes.Keys == old(v.inodes).Keys - {old(v.vnodes[k].ino)}
    ensures err != DirOk ==> Others(old(v.inodes), old(v.disk), v.inodes, v.disk, {ROOT, old(v.vnodes[k].ino)})
    ensures err != DirOk ==> RefsMoved(old(v.vnodes), v.vnodes, old(v.vnodes[k].ino), -1)
  {
    ghost var i0, d0, vs0, f := v.inodes, v.disk, v.vnodes, v.vnodes[k].ino;
    err, slot := LinkFile(v, d, name, k);
    if err != DirOk {
      ghost var i1, d1, vs1 := v.inodes, v.disk, v.vnodes;
      OnlyLinksOthers(i0, d0, i1, d1, f, 0);
      RefsKept(vs0, vs1);
      v.Known(k);
      assert SameBytes(i0[f], d0, i1[f], d1);
      DropFile(v, k);
      OthersTwice(i0, d0, i1, d1, v.inodes, v.disk, {ROOT}, {f});
      assert {ROOT} + {f} == {ROOT, f};
    }
  }

  lemma OthersThanNew(i0: map<nat, Inode>, d0: Disk, i1: map<nat, Inode>, d1: Disk, i2: map<nat, Inode>, d2: Disk,
      f: nat)
    requires Others(i0, d0, i1, d1, {}) && Others(i1, d1, i2, d2, {ROOT, f}) && f !in i0
    ensures Others(i0, d0, i2, d2, {ROOT})
  {
    OthersTwice(i0, d0, i1, d1, i2, d2, {}, {ROOT, f});
  }

  /** The creation of a file under a name that is not in use. */
  method CreatNew(v: Volume, d: nat, name: seq<byte>) returns (err: DirError, k: nat, slot: nat)
    requires IsDir(v, d) && DirOK(v.inodes, v.disk) && NoNul(name) && Unused(Dir(v), name)
    modifies v
    ensures IsDir(v, d) && DirOK(v.inodes, v.disk) && err != EExist && (err == ENameTooLong ==> |name| + 1 > NAMELEN)
    ensures Others(old(v.inodes), old(v.disk), v.inodes, v.disk, {ROOT})
    ensures err == DirOk ==>
              && k < |v.vnodes|
              && Created(old(v.inodes), old(Dir(v)), v.inodes, v.disk, Dir(v), slot, v.vnodes[k].ino, name)
    ensures err == DirOk ==> RefsMoved(old(v.vnodes), v.vnodes, v.vnodes[k].ino, 1)
    ensures err != DirOk ==>
            Dir(v) == old(Dir(v)) && v.inodes.Keys == old(v.inodes).Keys && SameRefs(old(v.vnodes), v.vnodes)
  {
    ghost var i0, d0, vs0 := v.inodes, v.disk, v.vnodes;
    var e;
    slot := 0;
    e, k := NewObject(v, d);
    if e != Ok { return FromError(e), 0, 0; }
    ghost var i1, d1, vs1, f := v.inodes, v.disk, v.vnodes, v.vnodes[k].ino;
    err, slot := LinkNew(v, d, name, k);
    if err == DirOk {
      OnlyLinksOthers(i1, d1, v.inodes, v.disk, f, 1);
      RefsKept(vs1, v.vnodes);
      assert SameBytes(i1[f], d1, v.inodes[f], v.disk);
    }
    OthersThanNew(i0, d0, i1, d1, v.inodes, v.disk, f);
  }

  /** One new file, empty, with one link: the entry. */
  ghost predicate Created(inodes: map<nat, Inode>, dir: seq<Entry>, inodes': map<nat, Inode>, disk': Disk,
      dir': seq<Entry>, slot: nat, f: nat, name: seq<byte>)
  {
    && f !in inodes && inodes'.Keys == inodes.Keys + {f} && AddedAt(dir, dir', slot, Entry(f, name))
    && EmptyFile(inodes'[f], disk') && inodes'[f].links == 1
  }

  /** sfs_creat: the file of that name, made if there was none; on a failure half-way the
      new inode is given back. */
  method Creat(v: Volume, d: nat, name: seq<byte>, excl: bool) returns (err: DirError, k: nat, ghost slot: nat)
    requires IsDir(v, d) && DirOK(v.inodes, v.disk) && NoNul(name)
    modifies v
    ensures IsDir(v, d) && DirOK(v.inodes, v.disk) && Others(old(v.inodes), old(v.disk), v.inodes, v.disk, {ROOT})
    ensures err == EExist <==> excl && !Unused(old(Dir(v)), name)
    ensures err == ENameTooLong ==> Unused(old(Dir(v)), name) && |name| + 1 > NAMELEN
    ensures err == DirOk ==> k < |v.vnodes| && RefsMoved(old(v.vnodes), v.vnodes, v.vnodes[k].ino, 1)
    ensures err == DirOk && Unused(old(Dir(v)), name) ==>
      Created(old(v.inodes), old(Dir(v)), v.inodes, v.disk, Dir(v), slot, v.vnodes[k].ino, name)
    ensures err == DirOk && !Unused(old(Dir(v)), name) ==>
      && v.inodes == old(v.inodes) && v.disk == old(v.disk)
      && slot < |Dir(v)| && Dir(v)[slot] == Entry(v.vnodes[k].ino, name)
    ensures err != DirOk ==>
            Dir(v) == old(Dir(v)) && v.inodes.Keys == old(v.inodes).Keys && SameRefs(old(v.vnodes), v.vnodes)
  {
    var f := FindName(v, d, name);
    k, slot := 0, f.slot;
    if f.found && excl { return EExist, 0, 0; }
    if f.found {
      assert Dir(v)[f.slot] == Entry(f.ino, name);
      k := LoadVnode(v, f.ino);
      return DirOk, k, f.slot;
    }
    err, k, slot := CreatNew(v, d, name);
  }

  /** sfs_link. */
  method Link(v: Volume, d: nat, name: seq<byte>, k: nat) returns (err: DirError, slot: nat)
    requires IsDir(v, d) && DirOK(v.inodes, v.disk) && NoNul(name) && k < |v.vnodes| && v.vnodes[k].ino != ROOT
    modifies v
    ensures IsDir(v, d) && DirOK(v.inodes, v.disk) && SameVnodes(old(v.vnodes), v.vnodes)
    ensures OnlyLinks(old(v.inodes), old(v.disk), v.inodes, v.disk, v.vnodes[k].ino, if err == DirOk then 1 else 0)
    ensures err == EExist <==> !Unused(old(Dir(v)), name)
    ensures err == ENameTooLong <==> Unused(old(Dir(v)), name) && |name| + 1 > NAMELEN
    ensures err != DirOk ==> Dir(v) == old(Dir(v))
    ensures err == DirOk ==> AddedAt(old(Dir(v)), Dir(v), slot, Entry(v.vnodes[k].ino, name))
  {
    err, slot := LinkFile(v, d, name, k);
  }

  lemma NameGone(d: seq<Entry>, slot: nat, name: seq<byte>)
    requires Distinct(d) && slot < |d| && d[slot].ino != 0 && d[slot].name == name
    ensures Unused(d[slot := FREE], name)
  {
  }

  /** What becomes of a file that loses a name: it is erased with its last name and its last
      reference, and has its bytes otherwise. */
  ghost predicate LostName(inodes: map<nat, Inode>, disk: Disk, vnodes: seq<Vnode>, inodes': map<nat, Inode>,
      disk': Disk, f: nat)
  {
    && f in inodes
    && (f in inodes' <==> !(inodes[f].links == 1 && Refs(vnodes, f) == 0))
    && (f in inodes' ==> SameBytes(inodes[f], disk, inodes'[f], disk') && inodes'[f].links == inodes[f].links - 1)
  }

  lemma RemovedIs(i0: map<nat, Inode>, d0: Disk, vs0: seq<Vnode>, i1: map<nat, Inode>, d1: Disk, i2: map<nat, Inode>,
      d2: Disk, f: nat)
    requires f in i0 && f != ROOT && OnlyLinks(i0, d0, i1, d1, f, -1)
    requires var gone := if Refs(vs0, f) == 0 && i1[f].links == 0 then {f} else {};
      Others(i1, d1, i2, d2, gone) && i2.Keys == i1.Keys - gone
    ensures Others(i0, d0, i2, d2, {ROOT, f}) && LostName(i0, d0, vs0, i2, d2, f)
  {
    OnlyLinksOthers(i0, d0, i1, d1, f, -1);
    assert SameBytes(i0[f], d0, i1[f], d1);
    var gone := if Refs(vs0, f) == 0 && i1[f].links == 0 then {f} else {};
    OthersTwice(i0, d0, i1, d1, i2, d2, {ROOT, f}, gone);
    assert {ROOT, f} + gone == {ROOT, f};
    if f !in gone { assert SameFile(i1[f], d1, i2[f], d2); }
  }

  /** sfs_remove. */
  method Remove(v: Volume, d: nat, name: seq<byte>) returns (err: DirError, ghost slot: nat)
    requires IsDir(v, d) && DirOK(v.inodes, v.disk)
    modifies v
    ensures v.Valid() && DirOK(v.inodes, v.disk) && SameRefs(old(v.vnodes), v.vnodes)
    ensures err == DirOk || err == ENoEntry
    ensures err == ENoEntry <==> Unused(old(Dir(v)), name)
    ensures Unused(Dir(v), name)
    ensures err == ENoEntry ==> v.inodes == old(v.inodes) && v.disk == old(v.disk) && v.marked == old(v.marked)
    ensures err == DirOk ==>
            slot < |old(Dir(v))| && old(Dir(v))[slot].name == name && Dir(v) == old(Dir(v))[slot := FREE]
    ensures err == DirOk ==> var f := old(Dir(v))[slot].ino;
      && Others(old(v.inodes), old(v.disk), v.inodes, v.disk, {ROOT, f})
      && LostName(old(v.inodes), old(v.disk), old(v.vnodes), v.inodes, v.disk, f)
  {
    ghost var i0, d0, vs0 := v.inodes, v.disk, v.vnodes;
    var found, s, k := LookOnce(v, d, name);
    slot := s;
    if !found { return ENoEntry, s; }
    ghost var dir, f, vs1 := Dir(v), v.vnodes[k].ino, v.vnodes;
    UnlinkFile(v, d, s, k);
    ghost var i2, d2, vs2 := v.inodes, v.disk, v.vnodes;
    RefsKept(vs1, vs2);
    AllRefs(v, k);
    v.Known(k);
    DropFile(v, k);
    RemovedIs(i0, d0, vs0, i2, d2, v.inodes, v.disk, f);
    NameGone(dir, s, name);
    err := DirOk;
  }

  /** The entry with the old name is free, and one with the new name and the same file
      is in a slot that was free, or at the end. */
  ghost predicate RenamedAt(d: seq<Entry>, d': seq<Entry>, n1: seq<byte>, n2: seq<byte>, slot1: nat, slot2: nat) {
    && slot1 < |d| && slot2 <= |d| && slot1 != slot2 && (slot2 < |d| ==> d[slot2].ino == 0)
    && d[slot1].ino != 0 && d[slot1].name == n1
    && d' == Put(d, slot2, Entry(d[slot1].ino, n2))[slot1 := FREE]
  }

  /** The linking and unlinking of a rename, the file being at hand. */
  method Relink(v: Volume, d: nat, slot1: nat, k: nat, n2: seq<byte>) returns (err: DirError, ghost slot2: nat)
    requires IsDir(v, d) && DirOK(v.inodes, v.disk) && NoNul(n2) && k < |v.vnodes| && v.vnodes[k].ino != ROOT
    requires slot1 < |Dir(v)| && Dir(v)[slot1].ino == v.vnodes[k].ino
    modifies v
    ensures v.Valid() && DirOK(v.inodes, v.disk) && err != ENoEntry
    ensures k < |v.vnodes| && v.vnodes[k].ino == old(v.vnodes[k].ino) && SameRefs(old(v.vnodes), v.vnodes)
    ensures OnlyLinks(old(v.inodes), old(v.disk), v.inodes, v.disk, v.vnodes[k].ino, 0)
    ensures err == EExist <==> !Unused(old(Dir(v)), n2)
    ensures err == ENameTooLong <==> Unused(old(Dir(v)), n2) && |n2| + 1 > NAMELEN
    ensures err != DirOk ==> Dir(v) == old(Dir(v))
    ensures err == DirOk ==> RenamedAt(old(Dir(v)), Dir(v), old(Dir(v))[slot1].name, n2, slot1, slot2)
  {
    ghost var i0, d0, vs0, dir, f := v.inodes, v.disk, v.vnodes, Dir(v), v.vnodes[k].ino;
    InodeNumber(v, k);
    err, slot2 := LinkFile(v, d, n2, k);
    if err == DirOk {
      ghost var i1, d1 := v.inodes, v.disk;
      assert slot2 != slot1 && Dir(v)[slot1] == dir[slot1];
      UnlinkFile(v, d, slot1, k);
      OnlyLinksTwice(i0, d0, i1, d1, v.inodes, v.disk, f, 1, -1);
    }
    RefsKept(vs0, v.vnodes);
  }

  /** A file with a name survives the dropping of a reference. */
  lemma RenamedIs(i0: map<nat, Inode>, d0: Disk, i1: map<nat, Inode>, d1: Disk, i2: map<nat, Inode>, d2: Disk, f: nat,
      last: bool)
    requires f in i0 && f != ROOT && i0[f].links > 0 && OnlyLinks(i0, d0, i1, d1, f, 0)
    requires var gone := if last && i1[f].links == 0 then {f} else {};
      Others(i1, d1, i2, d2, gone) && i2.Keys == i1.Keys - gone
    ensures Others(i0, d0, i2, d2, {ROOT}) && i2.Keys == i0.Keys
  {
    assert SameBytes(i0[f], d0, i1[f], d1);
    OnlyLinksOthers(i0, d0, i1, d1, f, 0);
    OthersTwice(i0, d0, i1, d1, i2, d2, {ROOT}, {});
    assert {ROOT} + {} == {ROOT};
  }

  /** A rename, once the file has been looked up. */
  method RenameFound(v: Volume, d: nat, slot1: nat, k: nat, n2: seq<byte>) returns (err: DirError, ghost slot2: nat)
    requires IsDir(v, d) && DirOK(v.inodes, v.disk) && NoNul(n2) && k < |v.vnodes| && v.vnodes[k].ino != ROOT
    requires slot1 < |Dir(v)| && Dir(v)[slot1].ino == v.vnodes[k].ino
    requires v.vnodes[k].ino in v.inodes && v.inodes[v.vnodes[k].ino].links > 0
    modifies v
    ensures v.Valid() && DirOK(v.inodes, v.disk) && v.inodes.Keys == old(v.inodes).Keys && err != ENoEntry
    ensures Others(old(v.inodes), old(v.disk), v.inodes, v.disk, {ROOT})
    ensures RefsMoved(old(v.vnodes), v.vnodes, old(v.vnodes[k].ino), -1)
    ensures err == EExist <==> !Unused(old(Dir(v)), n2)
    ensures err == ENameTooLong <==> Unused(old(Dir(v)), n2) && |n2| + 1 > NAMELEN
    ensures err != DirOk ==> Dir(v) == old(Dir(v))
    ensures err == DirOk ==> RenamedAt(old(Dir(v)), Dir(v), old(Dir(v))[slot1].name, n2, slot1, slot2)
  {
    ghost var i0, d0, f := v.inodes, v.disk, v.vnodes[k].ino;
    err, slot2 := Relink(v, d, slot1, k, n2);
    ghost var i2, d2 := v.inodes, v.disk;
    v.Known(k);
    ghost var last := v.vnodes[k].refs == 1;
    DropFile(v, k);
    RenamedIs(i0, d0, i2, d2, v.inodes, v.disk, f, last);
  }

  /** sfs_rename: the file has the new name instead of the old one, or nothing happened;
      a name that is in use, even by the file itself, is refused. */
  method Rename(v: Volume, d: nat, n1: seq<byte>, n2: seq<byte>)
      returns (err: DirError, ghost slot1: nat, ghost slot2: nat)
    requires IsDir(v, d) && DirOK(v.inodes, v.disk) && NoNul(n2)
    modifies v
    ensures v.Valid() && DirOK(v.inodes, v.disk) && v.inodes.Keys == old(v.inodes).Keys
    ensures Others(old(v.inodes), old(v.disk), v.inodes, v.disk, {ROOT}) && SameRefs(old(v.vnodes), v.vnodes)
    ensures err == ENoEntry <==> Unused(old(Dir(v)), n1)
    ensures err == EExist <==> !Unused(old(Dir(v)), n1) && !Unused(old(Dir(v)), n2)
    ensures err == ENameTooLong <==> !Unused(old(Dir(v)), n1) && Unused(old(Dir(v)), n2) && |n2| + 1 > NAMELEN
    ensures err != DirOk ==> Dir(v) == old(Dir(v))
    ensures err == DirOk ==> RenamedAt(old(Dir(v)), Dir(v), n1, n2, slot1, slot2)
  {
    slot1, slot2 := 0, 0;
    var found, s, k := LookOnce(v, d, n1);
    if !found { return ENoEntry, 0, 0; }
    slot1 := s;
    err, slot2 := RenameFound(v, d, s, k, n2);
  }

  // ------------------------------------------------ other operations on the volume

  /** Writing to a file leaves the directory. */
  lemma WriteKeepsDir(a: Snap, b: Snap, f: nat, n: nat)
    requires DirOK(a.inodes, a.disk) && WroteFile(a, b, f, n) && f != ROOT
    ensures DirOK(b.inodes, b.disk)
  {
    SameEntries(a.inodes[ROOT], a.disk, b.inodes[ROOT], b.disk);
  }

  /** And so does truncating one. */
  lemma TruncateKeepsDir(inodes: map<nat, Inode>, disk: Disk, marked: set<nat>, inodes': map<nat, Inode>, disk': Disk,
                         marked': set<nat>, f: nat, blocklen: nat, size: nat)
    requires DirOK(inodes, disk) && f != ROOT
    requires Truncated(inodes, disk, marked, inodes', disk', marked', f, blocklen) && Resized(inodes, inodes', f, size)
    ensures DirOK(inodes', disk')
  {
    forall x: nat ensures Content(inodes'[ROOT], disk', x) == Content(inodes[ROOT], disk, x) {
      assert BlockAt(inodes', disk', Dat(ROOT, x / BLOCK)) == BlockAt(inodes, disk, Dat(ROOT, x / BLOCK));
    }
    SameEntries(inodes[ROOT], disk, inodes'[ROOT], disk');
  }

  /** On a fresh volume no name is in use, and the counts are right. */
  lemma FreshDirectory(disk: Disk)
    ensures DirOK(map[ROOT := RootInode()], disk) && Entries(RootInode(), disk) == []
  {
  }
}
