/** The table of vnodes of a volume: loading an inode, making a new one, writing it back,
    counting references, and reclaiming. */
module SfsVnodes {

  import opened Bytes
  import opened Linking
  import opened SfsModel
  import opened Sfs
  import opened SfsRefs
  import opened SfsTruncate

  /** The search of the table; its length if the inode is not in it. */
  method FindVnode(v: Volume, ino: nat) returns (k: nat)
    ensures k <= |v.vnodes|
    ensures k < |v.vnodes| ==> v.vnodes[k].ino == ino
    ensures k == |v.vnodes| ==> !Loaded(v.vnodes, ino)
  {
    k := 0;
    while k < |v.vnodes| && v.vnodes[k].ino != ino
      invariant k <= |v.vnodes| && forall j :: 0 <= j < k ==> v.vnodes[j].ino != ino
    {
      k := k + 1;
    }
  }

  lemma LoadedMore(vnodes: seq<Vnode>, n: Vnode, f: nat)
    ensures Loaded(vnodes, f) ==> Loaded(vnodes + [n], f)
  {
    if Loaded(vnodes, f) {
      var j :| 0 <= j < |vnodes| && vnodes[j].ino == f;
      assert (vnodes + [n])[j].ino == f;
    }
  }

  lemma VnodeAdded(vnodes: seq<Vnode>, inodes: map<nat, Inode>, disk: Disk, n: Vnode)
    requires VnodesOK(vnodes, inodes, disk) && n.ino in inodes && !Loaded(vnodes, n.ino) && n.refs > 0
    requires n.inode == inodes[n.ino]
    requires OnDisk(inodes, disk, n.ino)
    ensures VnodesOK(vnodes + [n], inodes, disk)
  {
    var vs := vnodes + [n];
    forall f | f in inodes && !Loaded(vs, f) ensures OnDisk(inodes, disk, f) {
      LoadedMore(vnodes, n, f);
    }
    forall j, k | 0 <= j < k < |vs| ensures vs[j].ino != vs[k].ino {
      if k == |vnodes| { assert vs[j] == vnodes[j]; }
    }
  }

  lemma VnodeRefs(vnodes: seq<Vnode>, inodes: map<nat, Inode>, disk: Disk, k: nat, refs: nat)
    requires VnodesOK(vnodes, inodes, disk) && k < |vnodes| && refs > 0
    ensures VnodesOK(vnodes[k := vnodes[k].(refs := refs)], inodes, disk)
  {
    var vs := vnodes[k := vnodes[k].(refs := refs)];
    forall f | f in inodes && !Loaded(vs, f) ensures OnDisk(inodes, disk, f) { SameLoaded(vnodes, vs, f); }
  }

  /** vnode_incref, and vnode_decref while there are other references. */
  method SetRefs(v: Volume, k: nat, refs: nat)
    requires v.Valid() && k < |v.vnodes| && refs > 0
    modifies v`vnodes
    ensures v.Valid() && v.vnodes == old(v.vnodes)[k := old(v.vnodes)[k].(refs := refs)]
    ensures RefsMoved(old(v.vnodes), v.vnodes, old(v.vnodes[k].ino), refs - old(v.vnodes[k].refs))
  {
    v.Facts();
    VnodeRefs(v.vnodes, v.inodes, v.disk, k, refs);
    RefsSet(v.vnodes, k, v.vnodes[k].(refs := refs));
    v.vnodes := v.vnodes[k := v.vnodes[k].(refs := refs)];
    v.Seal();
  }

  /** sfs_loadvnode without a type to force: the vnode of an existing file, with one more
      reference. */
  method LoadVnode(v: Volume, ino: nat) returns (k: nat)
    requires v.Valid() && ino in v.inodes
    modifies v`vnodes
    ensures v.Valid() && k < |v.vnodes| && v.vnodes[k].ino == ino
    ensures Loaded(old(v.vnodes), ino) ==>
              && |v.vnodes| == |old(v.vnodes)| && v.vnodes[k].refs == old(v.vnodes)[k].refs + 1
              && v.vnodes == old(v.vnodes)[k := old(v.vnodes)[k].(refs := v.vnodes[k].refs)]
    ensures !Loaded(old(v.vnodes), ino) ==> v.vnodes == old(v.vnodes) + [Vnode(ino, v.inodes[ino], false, 1)]
    ensures RefsMoved(old(v.vnodes), v.vnodes, ino, 1)
  {
    k := FindVnode(v, ino);
    if k < |v.vnodes| {
      SetRefs(v, k, v.vnodes[k].refs + 1);
    } else {
      ReadInode(v, ino);
    }
  }

  /** The inode is read from its block, and its vnode added to the table. */
  method ReadInode(v: Volume, ino: nat)
    requires v.Valid() && ino in v.inodes && !Loaded(v.vnodes, ino)
    modifies v`vnodes
    ensures v.Valid() && v.vnodes == old(v.vnodes) + [Vnode(ino, v.inodes[ino], false, 1)]
    ensures RefsMoved(old(v.vnodes), v.vnodes, ino, 1)
  {
    v.Facts();
    assert BlockAt(v.inodes, v.disk, Ino(ino)) == ino;
    assert OnDisk(v.inodes, v.disk, ino);
    var n := Vnode(ino, DecodeInode(v.disk[ino]), false, 1);
    VnodeAdded(v.vnodes, v.inodes, v.disk, n);
    RefsAdded(v.vnodes, n);
    v.vnodes := v.vnodes + [n];
    v.Seal();
  }

  // ------------------------------------------------------------------- new files

  lemma NewFileKeeps(inodes: map<nat, Inode>, disk: Disk, marked: set<nat>, f: nat, i: Inode)
    requires RolesOK(inodes, disk, marked) && NoRole(inodes, disk, f) && f in marked && f < |disk| && f != 0
    requires IsEmpty(i.(kind := 0)) && i.kind < 0x1_0000
    ensures f !in inodes && RolesOK(inodes[f := i], disk, marked)
    ensures RoleAt(inodes, disk, inodes[f := i], disk, Ino(f), f)
  {
    assert f in inodes ==> BlockAt(inodes, disk, Ino(f)) == f;
    RoleAdded(inodes, disk, marked, inodes[f := i], disk, Ino(f), f);
  }

  lemma VnodesNewFile(vnodes: seq<Vnode>, inodes: map<nat, Inode>, disk: Disk, n: Vnode)
    requires VnodesOK(vnodes, inodes, disk) && n.ino !in inodes && n.refs > 0 && n.dirty
    ensures VnodesOK(vnodes + [n], inodes[n.ino := n.inode], disk)
  {
    var vs, now := vnodes + [n], inodes[n.ino := n.inode];
    assert vs[|vnodes|] == n;
    assert Loaded(vs, n.ino);
    forall f | f in now && !Loaded(vs, f) ensures OnDisk(now, disk, f) {
      LoadedMore(vnodes, n, f);
      assert OnDisk(inodes, disk, f);
    }
    forall k | 0 <= k < |vs| && !vs[k].dirty ensures OnDisk(now, disk, vs[k].ino) {
      assert OnDisk(inodes, disk, vnodes[k].ino);
    }
  }

  method ReadCleared(b: seq<byte>) returns (i: Inode)
    requires b == Zeros(BLOCK)
    ensures IsEmpty(i)
  {
    ZeroInode(b);
    i := DecodeInode(b);
  }

  /** sfs_loadvnode with a type to force, on a block just cleared. */
  method LoadNew(v: Volume, ino: nat, kind: nat) returns (k: nat)
    requires v.Pending(ino) && kind < 0x1_0000
    modifies v`inodes, v`vnodes
    ensures v.Valid() && ino !in old(v.inodes) && ino in v.inodes && v.inodes == old(v.inodes)[ino := v.inodes[ino]]
    ensures k == |old(v.vnodes)| && v.vnodes == old(v.vnodes) + [Vnode(ino, v.inodes[ino], true, 1)]
    ensures IsEmpty(v.inodes[ino].(kind := 0)) && v.inodes[ino].kind == kind
  {
    var inode := ReadCleared(v.disk[ino]);
    inode := inode.(kind := kind);
    NewFileKeeps(v.inodes, v.disk, v.marked, ino, inode);
    AccountedAdded(v.inodes, v.disk, v.marked, v.reserved, v.inodes[ino := inode], v.disk, Ino(ino), ino);
    VnodesNewFile(v.vnodes, v.inodes, v.disk, Vnode(ino, inode, true, 1));
    k := |v.vnodes|;
    v.inodes := v.inodes[ino := inode];
    v.vnodes := v.vnodes + [Vnode(ino, inode, true, 1)];
    v.Seal();
  }

  /** sfs_makeobj: a block for the inode, and a vnode for it. */
  method MakeObj(v: Volume, kind: nat) returns (err: Error, k: nat)
    requires v.Valid() && (kind == FILE || kind == DIR)
    modifies v
    ensures v.Valid() && (err == Ok || err == NoSpace)
    ensures err == NoSpace ==>
            v.inodes == old(v.inodes) && v.disk == old(v.disk) && v.vnodes == old(v.vnodes) && v.marked == old(v.marked)
    ensures err == Ok ==>
            k == |old(v.vnodes)| && |v.vnodes| == k + 1 && v.vnodes[..k] == old(v.vnodes) && v.vnodes[k].refs == 1
    ensures err == Ok ==> NewFile(old(v.inodes), old(v.disk), v.inodes, v.disk, v.vnodes[k].ino, kind)
    ensures err == Ok ==> v.marked == old(v.marked) + {v.vnodes[k].ino} && v.vnodes[k].ino !in old(v.marked)
    ensures err == Ok ==> RefsMoved(old(v.vnodes), v.vnodes, v.vnodes[k].ino, 1)
  {
    ghost var vs := v.vnodes;
    var ino;
    err, ino := v.Balloc();
    if err != Ok { return err, 0; }
    k := LoadNew(v, ino, kind);
    RefsAdded(vs, v.vnodes[k]);
  }

  /** One more file, empty and without links; the others as they were. */
  ghost predicate NewFile(inodes: map<nat, Inode>, disk: Disk, inodes': map<nat, Inode>, disk': Disk, f: nat,
      kind: nat)
  {
    && f !in inodes && inodes'.Keys == inodes.Keys + {f} && |disk'| == |disk|
    && IsEmpty(inodes'[f].(kind := 0)) && inodes'[f].kind == kind
    && (forall g :: g in inodes ==> inodes'[g] == inodes[g])
    && (forall g, x: nat :: g in inodes ==> Content(inodes[g], disk', x) == Content(inodes[g], disk, x))
  }

  // ---------------------------------------------------------- writing back, reclaiming

  /** sfs_sync_inode. */
  method SyncInode(v: Volume, k: nat)
    requires v.Valid() && k < |v.vnodes|
    modifies v`disk, v`vnodes
    ensures v.Valid() && SameContents(v.inodes, old(v.disk), v.inodes, v.disk) && |v.disk| == |old(v.disk)|
    ensures SameRoles(v.inodes, old(v.disk), v.inodes, v.disk)
    ensures v.vnodes == old(v.vnodes)[k := old(v.vnodes)[k].(dirty := false)]
  {
    v.Facts();
    if v.vnodes[k].dirty {
      var f := v.vnodes[k].ino;
      var b := Encoded(v.vnodes[k].inode);
      SyncKeeps(v.inodes, v.disk, v.marked, f, b);
      VnodesSynced(v.vnodes, v.inodes, v.disk, k, b);
      AccountedKept(v.inodes, v.disk, v.marked, v.reserved, v.inodes, v.disk[f := b]);
      v.disk := v.disk[f := b];
      v.vnodes := v.vnodes[k := v.vnodes[k].(dirty := false)];
      v.Seal();
    }
  }

  method Encoded(i: Inode) returns (b: seq<byte>)
    requires InodeOK(i)
    ensures |b| == BLOCK && DecodeInode(b) == i
  {
    InodeRoundTrip(i);
    b := EncodeInode(i);
  }

  lemma VnodesSynced(vnodes: seq<Vnode>, inodes: map<nat, Inode>, disk: Disk, k: nat, b: seq<byte>)
    requires VnodesOK(vnodes, inodes, disk) && k < |vnodes| && vnodes[k].ino < |disk| && |b| == BLOCK
    requires DecodeInode(b) == vnodes[k].inode
    ensures VnodesOK(vnodes[k := vnodes[k].(dirty := false)], inodes, disk[vnodes[k].ino := b])
  {
    var vs, disk' := vnodes[k := vnodes[k].(dirty := false)], disk[vnodes[k].ino := b];
    forall f | f in inodes && f != vnodes[k].ino && OnDisk(inodes, disk, f) ensures OnDisk(inodes, disk', f) { }
    forall f | f in inodes && !Loaded(vs, f) ensures OnDisk(inodes, disk', f) {
      SameLoaded(vnodes, vs, f);
      assert Loaded(vs, vnodes[k].ino) by { assert vs[k].ino == vnodes[k].ino; }
    }
  }

  /** The vnode goes; the file stays on disk. */
  lemma VnodeForgotten(vnodes: seq<Vnode>, inodes: map<nat, Inode>, disk: Disk, k: nat)
    requires VnodesOK(vnodes, inodes, disk) && k < |vnodes| && !vnodes[k].dirty
    ensures VnodesOK(Cut(vnodes, k), inodes, disk)
  {
    var vs := Cut(vnodes, k);
    forall f | f in inodes && !Loaded(vs, f) ensures OnDisk(inodes, disk, f) {
      if f != vnodes[k].ino { StillLoaded(vnodes, k, f); }
    }
  }

  lemma StillLoaded(vnodes: seq<Vnode>, k: nat, f: nat)
    requires k < |vnodes| && f != vnodes[k].ino
    ensures Loaded(Cut(vnodes, k), f) <==> Loaded(vnodes, f)
  {
    var vs := Cut(vnodes, k);
    if Loaded(vnodes, f) {
      var j :| 0 <= j < |vnodes| && vnodes[j].ino == f;
      assert vs[if j < k then j else j - 1].ino == f;
    }
    if Loaded(vs, f) {
      var j :| 0 <= j < |vs| && vs[j].ino == f;
      assert vnodes[if j < k then j else j + 1].ino == f;
    }
  }

  /** The vnode and the file go. */
  lemma VnodeAndFileGone(vnodes: seq<Vnode>, inodes: map<nat, Inode>, disk: Disk, k: nat)
    requires VnodesOK(vnodes, inodes, disk) && k < |vnodes|
    ensures VnodesOK(Cut(vnodes, k), inodes - {vnodes[k].ino}, disk)
  {
    var vs, now := Cut(vnodes, k), inodes - {vnodes[k].ino};
    forall f | f in now && !Loaded(vs, f) ensures OnDisk(now, disk, f) {
      StillLoaded(vnodes, k, f);
      assert OnDisk(inodes, disk, f);
    }
    forall j | 0 <= j < |vs| && !vs[j].dirty ensures OnDisk(now, disk, vs[j].ino) {
      assert OnDisk(inodes, disk, vs[j].ino);
    }
  }

  lemma FileGone(inodes: map<nat, Inode>, disk: Disk, marked: set<nat>, f: nat)
    requires RolesOK(inodes, disk, marked) && f in inodes && inodes[f].indirect == 0
    requires forall n: nat :: Slot(inodes[f], disk, n) == 0
    ensures RolesOK(inodes - {f}, disk, marked - {f})
    ensures forall p: Place :: BlockAt(inodes - {f}, disk, p) == if p == Ino(f) then 0 else BlockAt(inodes, disk, p)
  {
    var now := inodes - {f};
    assert BlockAt(inodes, disk, Ino(f)) == f;
    forall p: Place ensures BlockAt(now, disk, p) == if p == Ino(f) then 0 else BlockAt(inodes, disk, p) { }
    RolesDropped(inodes, disk, marked, now, disk, marked - {f});
  }

  /** File f is gone and all its blocks are unmarked; the others are as they were. */
  ghost predicate Erased(inodes: map<nat, Inode>, disk: Disk, marked: set<nat>,
                         inodes': map<nat, Inode>, disk': Disk, marked': set<nat>, f: nat)
  {
    && f in inodes && inodes'.Keys == inodes.Keys - {f} && |disk'| == |disk| && marked' <= marked
    && (forall p: Place :: p.f != f ==> BlockAt(inodes', disk', p) == BlockAt(inodes, disk, p))
    && (forall p: Place :: p.f == f && BlockAt(inodes, disk, p) != 0 ==> BlockAt(inodes, disk, p) !in marked')
    && (forall b :: b in marked && NoRole(inodes, disk, b) ==> b in marked')
    && (forall g :: g in inodes' ==>
          inodes'[g].size == inodes[g].size && inodes'[g].kind == inodes[g].kind && inodes'[g].links == inodes[g].links)
    && (forall g, x: nat :: g in inodes' ==> Content(inodes'[g], disk', x) == Content(inodes[g], disk, x))
  }

  lemma ErasedIs(inodes: map<nat, Inode>, disk: Disk, marked: set<nat>, i1: map<nat, Inode>, d1: Disk, m1: set<nat>,
      d2: Disk, f: nat)
    requires RolesOK(inodes, disk, marked)
    requires Truncated(inodes, disk, marked, i1, d1, m1, f, BlockLen(0)) && Resized(inodes, i1, f, 0)
    requires SameContents(i1, d1, i1, d2) && SameRoles(i1, d1, i1, d2) && RolesOK(i1, d2, m1) && |d2| == |d1|
    ensures Erased(inodes, disk, marked, i1 - {f}, d2, m1 - {f}, f)
    ensures RolesOK(i1 - {f}, d2, m1 - {f})
  {
    TruncatedToNothing(inodes, disk, marked, i1, d1, m1, f);
    forall n: nat ensures Slot(i1[f], d2, n) == 0 {
      assert BlockAt(i1, d2, Dat(f, n)) == Slot(i1[f], d2, n) && BlockAt(i1, d1, Dat(f, n)) == Slot(i1[f], d1, n);
    }
    FileGone(i1, d2, m1, f);
    assert BlockAt(inodes, disk, Ino(f)) == f;
    forall p: Place | p.f == f && BlockAt(inodes, disk, p) != 0 ensures BlockAt(inodes, disk, p) !in m1 - {f} {
      if !p.Ino? {
        assert BlockAt(i1, d1, p) == 0 by {
          if p.Dat? { assert BlockAt(i1, d1, p) == Slot(i1[f], d1, p.n); }
        }
      }
    }
    forall g, x: nat | g in i1 - {f} ensures Content(i1[g], d2, x) == Content(inodes[g], disk, x) {
      assert BlockAt(i1, d1, Dat(g, x / BLOCK)) == BlockAt(inodes, disk, Dat(g, x / BLOCK));
      assert Content(i1[g], d1, x) == if Slot(i1[g], d1, x / BLOCK) == 0 then 0 else Content(inodes[g], disk, x);
    }
  }

  /** sfs_reclaim of a file with links on disk, on its last reference: it is written back
      and its vnode forgotten. */
  method Forget(v: Volume, k: nat)
    requires v.Valid() && k < |v.vnodes|
    modifies v
    ensures v.Valid() && v.inodes == old(v.inodes) && v.marked == old(v.marked) && v.vnodes == Cut(old(v.vnodes), k)
    ensures SameContents(old(v.inodes), old(v.disk), v.inodes, v.disk) && |v.disk| == |old(v.disk)|
    ensures SameRoles(old(v.inodes), old(v.disk), v.inodes, v.disk)
  {
    SyncInode(v, k);
    v.Facts();
    VnodeForgotten(v.vnodes, v.inodes, v.disk, k);
    v.vnodes := Cut(v.vnodes, k);
    v.Seal();
  }

  /** The file is cut to nothing and written back; what is left of it is its inode. */
  method Empty(v: Volume, k: nat)
    requires v.Valid() && k < |v.vnodes|
    modifies v
    ensures v.Valid() && SameVnodes(old(v.vnodes), v.vnodes)
    ensures var f := old(v.vnodes[k].ino);
      && v.vnodes[k].ino == f
      && Erased(old(v.inodes), old(v.disk), old(v.marked), v.inodes - {f}, v.disk, v.marked - {f}, f)
      && RolesOK(v.inodes - {f}, v.disk, v.marked - {f})
  {
    ghost var i0, d0, m0 := v.inodes, v.disk, v.marked;
    v.Facts();
    Truncate(v, k, 0);
    ghost var i1, d1, m1 := v.inodes, v.disk, v.marked;
    SyncInode(v, k);
    v.Facts();
    ErasedIs(i0, d0, m0, i1, d1, m1, v.disk, v.vnodes[k].ino);
  }

  lemma ErasedAccounted(inodes: map<nat, Inode>, disk: Disk, marked: set<nat>, inodes': map<nat, Inode>, disk': Disk,
      marked': set<nat>, f: nat, reserved: set<nat>)
    requires Accounted(inodes, disk, marked, reserved) && Erased(inodes, disk, marked, inodes', disk', marked', f)
    requires 0 in marked'
    ensures Accounted(inodes', disk', marked', reserved)
  {
    forall p: Place ensures BlockAt(inodes', disk', p) == 0 ||
      BlockAt(inodes', disk', p) == BlockAt(inodes, disk, p) { }
    AccountedDropped(inodes, disk, marked, reserved, inodes', disk', marked');
  }

  /** And of a file without any: its blocks and its inode are freed. */
  method Erase(v: Volume, k: nat)
    requires v.Valid() && k < |v.vnodes|
    modifies v
    ensures v.Valid()
    ensures Erased(old(v.inodes), old(v.disk), old(v.marked), v.inodes, v.disk, v.marked, old(v.vnodes[k].ino))
    ensures |v.vnodes| == |old(v.vnodes)| - 1 && SameVnodes(Cut(old(v.vnodes), k), v.vnodes)
  {
    var f := v.vnodes[k].ino;
    ghost var vs, i0, d0, m0 := v.vnodes, v.inodes, v.disk, v.marked;
    v.Facts();
    Empty(v, k);
    SameCut(vs, v.vnodes, k);
    v.Facts();
    VnodeAndFileGone(v.vnodes, v.inodes, v.disk, k);
    v.marked := v.marked - {f};
    v.inodes := v.inodes - {f};
    v.vnodes := Cut(v.vnodes, k);
    ErasedAccounted(i0, d0, m0, v.inodes, v.disk, v.marked, f, v.reserved);
    v.Seal();
  }

  lemma SameCut(vnodes: seq<Vnode>, vnodes': seq<Vnode>, k: nat)
    requires SameVnodes(vnodes, vnodes') && k < |vnodes|
    ensures SameVnodes(Cut(vnodes, k), Cut(vnodes', k))
  {
  }

  /** What dropping a reference comes to. */
  ghost predicate Dropped(inodes: map<nat, Inode>, disk: Disk, marked: set<nat>, inodes': map<nat, Inode>, disk': Disk,
                          marked': set<nat>, f: nat, last: bool)
  {
    f in inodes &&
    if last && inodes[f].links == 0 then Erased(inodes, disk, marked, inodes', disk', marked', f)
    else inodes' == inodes && marked' == marked && |disk'| == |disk| && SameContents(inodes, disk, inodes', disk')
  }

  /** vnode_decref, with sfs_reclaim. */
  method DecRef(v: Volume, k: nat)
    requires v.Valid() && k < |v.vnodes|
    modifies v
    ensures v.Valid()
    ensures Dropped(old(v.inodes), old(v.disk), old(v.marked), v.inodes, v.disk, v.marked, old(v.vnodes[k].ino),
                    old(v.vnodes[k].refs) == 1)
    ensures var n := old(v.vnodes)[k];
      if n.refs > 1 then v.vnodes == old(v.vnodes)[k := n.(refs := n.refs - 1)]
      else SameVnodes(Cut(old(v.vnodes), k), v.vnodes)
    ensures RefsMoved(old(v.vnodes), v.vnodes, old(v.vnodes[k].ino), -1)
  {
    ghost var vs := v.vnodes;
    v.Facts();
    if v.vnodes[k].refs > 1 {
      SetRefs(v, k, v.vnodes[k].refs - 1);
    } else if v.vnodes[k].inode.links == 0 {
      Erase(v, k);
      RefsCut(vs, v.vnodes, k);
    } else {
      Forget(v, k);
      RefsCut(vs, v.vnodes, k);
    }
  }
}
