/** sfs_truncate: which blocks of a file it keeps, frees and unmarks. */
module SfsTruncate {

  import opened Bytes
  import opened SfsModel
  import opened SfsTransfer
  import opened Sfs

  /** Whether the n-th block of a file survives a truncation to that many blocks: an
      indirect one exactly at the new end does. */
  predicate Keeps(blocklen: nat, n: nat) { if n < NDIRECT then n < blocklen else n <= blocklen }

  /** Of the file blocks from lo to hi, those not kept are gone. */
  ghost predicate SlotsCut(i: Inode, disk: Disk, i': Inode, disk': Disk, lo: nat, hi: nat, blocklen: nat) {
    forall n: nat :: Slot(i', disk', n) == SlotCut(i, disk, lo, hi, blocklen, n)
  }

  function SlotCut(i: Inode, disk: Disk, lo: nat, hi: nat, blocklen: nat, n: nat): nat {
    if lo <= n < hi && !Keeps(blocklen, n) then 0 else Slot(i, disk, n)
  }

  /** Some blocks of f have gone: exactly those are unmarked, and their bytes read as zeros;
      no other role, mark or byte has changed. */
  ghost predicate Shrunk(inodes: map<nat, Inode>, disk: Disk, marked: set<nat>,
                         inodes': map<nat, Inode>, disk': Disk, marked': set<nat>, f: nat)
  {
    && f in inodes && inodes'.Keys == inodes.Keys && |disk'| == |disk| && marked' <= marked
    && (forall p: Place :: p.f != f || p.Ino? ==> BlockAt(inodes', disk', p) == BlockAt(inodes, disk, p))
    && (forall p: Place :: BlockAt(inodes', disk', p) == 0 || BlockAt(inodes', disk', p) == BlockAt(inodes, disk, p))
    && (forall p: Place :: BlockAt(inodes, disk, p) != 0 ==>
          (BlockAt(inodes, disk, p) in marked' <==> BlockAt(inodes', disk', p) != 0))
    && (forall b :: b in marked && NoRole(inodes, disk, b) ==> b in marked')
    && (forall g, x: nat :: g in inodes ==>
          Content(inodes'[g], disk', x) ==
            if Slot(inodes'[g], disk', x / BLOCK) == 0 then 0 else Content(inodes[g], disk, x))
  }

  /** Shrunk to the blocks that a truncation keeps. */
  ghost predicate Truncated(inodes: map<nat, Inode>, disk: Disk, marked: set<nat>,
                            inodes': map<nat, Inode>, disk': Disk, marked': set<nat>, f: nat, blocklen: nat)
  {
    && Shrunk(inodes, disk, marked, inodes', disk', marked', f)
    && SlotsCut(inodes[f], disk, inodes'[f], disk', 0, MAXBLOCKS, blocklen)
    && (blocklen < MAXBLOCKS - 1 ==> NotIdle(inodes'[f], disk'))
  }

  /** There is no indirect block without anything in it. */
  ghost predicate NotIdle(i: Inode, disk: Disk) {
    i.indirect == 0 || exists n: nat :: NDIRECT <= n && Slot(i, disk, n) != 0
  }

  lemma ShrunkRoles(inodes: map<nat, Inode>, disk: Disk, marked: set<nat>, inodes': map<nat, Inode>, disk': Disk,
      marked': set<nat>, f: nat)
    requires RolesOK(inodes, disk, marked) && Shrunk(inodes, disk, marked, inodes', disk', marked', f)
    requires WellFormed(inodes', disk')
    requires 0 in marked'
    ensures RolesOK(inodes', disk', marked')
  {
    RolesDropped(inodes, disk, marked, inodes', disk', marked');
  }

  lemma ShrunkAccounted(inodes: map<nat, Inode>, disk: Disk, marked: set<nat>, inodes': map<nat, Inode>, disk': Disk,
      marked': set<nat>, f: nat, reserved: set<nat>)
    requires Accounted(inodes, disk, marked, reserved) && Shrunk(inodes, disk, marked, inodes', disk', marked', f)
    requires 0 in marked'
    ensures Accounted(inodes', disk', marked', reserved)
  {
    AccountedDropped(inodes, disk, marked, reserved, inodes', disk', marked');
  }

  lemma ShrunkTwice(i0: map<nat, Inode>, d0: Disk, m0: set<nat>, i1: map<nat, Inode>, d1: Disk, m1: set<nat>,
                    i2: map<nat, Inode>, d2: Disk, m2: set<nat>, f: nat)
    requires Shrunk(i0, d0, m0, i1, d1, m1, f) && Shrunk(i1, d1, m1, i2, d2, m2, f)
    ensures Shrunk(i0, d0, m0, i2, d2, m2, f)
  {
    assert BlockAt(i0, d0, Dat(f, MAXBLOCKS)) == 0;
    forall b | b in m0 && NoRole(i0, d0, b) ensures b in m2 {
      forall p ensures BlockAt(i1, d1, p) != b { assert BlockAt(i0, d0, p) != b; }
      assert NoRole(i1, d1, b);
    }
    forall g, x: nat | g in i0
      ensures Content(i2[g], d2, x) == if Slot(i2[g], d2, x / BLOCK) == 0 then 0 else Content(i0[g], d0, x)
    {
      assert BlockAt(i2, d2, Dat(g, x / BLOCK)) == Slot(i2[g], d2, x / BLOCK);
      assert BlockAt(i1, d1, Dat(g, x / BLOCK)) == Slot(i1[g], d1, x / BLOCK);
    }
  }

  // ------------------------------------------------------------- the direct blocks

  function CutDirect(i: Inode, blocklen: nat, n: nat): Inode
    requires |i.direct| == NDIRECT && n <= NDIRECT
  {
    i.(direct := seq(NDIRECT, j requires 0 <= j < NDIRECT => if blocklen <= j < n then 0 else i.direct[j]))
  }

  function FreedDirect(i: Inode, blocklen: nat, n: nat): set<nat>
    requires |i.direct| == NDIRECT && n <= NDIRECT
  {
    if n == 0 then {}
    else FreedDirect(i, blocklen, n - 1) + if n - 1 >= blocklen && i.direct[n - 1] != 0 then {i.direct[n - 1]} else {}
  }

  /** The loop over the direct blocks; the inode changes with every block freed. */
  method FreeDirect(v: Volume, k: nat, blocklen: nat)
    requires k < |v.vnodes| && |v.vnodes[k].inode.direct| == NDIRECT
    requires v.vnodes[k].ino in v.inodes && v.inodes[v.vnodes[k].ino] == v.vnodes[k].inode
    modifies v
    ensures v.disk == old(v.disk) && SameVnodes(old(v.vnodes), v.vnodes)
    ensures v.vnodes[k].inode == CutDirect(old(v.vnodes[k].inode), blocklen, NDIRECT)
    ensures v.vnodes == old(v.vnodes) || v.vnodes == Changed(old(v.vnodes), k, v.vnodes[k].inode)
    ensures v.inodes == old(v.inodes)[v.vnodes[k].ino := v.vnodes[k].inode]
    ensures v.marked == old(v.marked) - FreedDirect(old(v.vnodes[k].inode), blocklen, NDIRECT)
  {
    ghost var i0 := v.vnodes[k].inode;
    ghost var vs := v.vnodes;
    assert CutDirect(i0, blocklen, 0).direct == i0.direct;
    for i := 0 to NDIRECT
      invariant v.disk == old(v.disk) && |v.vnodes| == |vs| && v.vnodes[k].inode == CutDirect(i0, blocklen, i)
      invariant v.vnodes == vs || v.vnodes == Changed(vs, k, v.vnodes[k].inode)
      invariant v.inodes == old(v.inodes)[vs[k].ino := v.vnodes[k].inode]
      invariant v.marked == old(v.marked) - FreedDirect(i0, blocklen, i)
    {
      var block := v.vnodes[k].inode.direct[i];
      if i >= blocklen && block != 0 {
        v.marked := v.marked - {block};
        var inode := v.vnodes[k].inode.(direct := v.vnodes[k].inode.direct[i := 0]);
        v.vnodes := Changed(v.vnodes, k, inode);
        v.inodes := v.inodes[v.vnodes[k].ino := inode];
      }
      assert v.vnodes[k].inode.direct == CutDirect(i0, blocklen, i + 1).direct;
    }
  }

  lemma {:induction false} WhoseDirect(inodes: map<nat, Inode>, disk: Disk, marked: set<nat>, f: nat, blocklen: nat,
      n: nat, p: Place)
    requires RolesOK(inodes, disk, marked) && f in inodes && n <= NDIRECT && BlockAt(inodes, disk, p) != 0
    ensures BlockAt(inodes, disk, p) in FreedDirect(inodes[f], blocklen, n) <==>
            p.Dat? && p.f == f && blocklen <= p.n < n
    ensures 0 !in FreedDirect(inodes[f], blocklen, n)
  {
    if n > 0 {
      WhoseDirect(inodes, disk, marked, f, blocklen, n - 1, p);
      assert BlockAt(inodes, disk, Dat(f, n - 1)) == inodes[f].direct[n - 1];
    }
  }

  lemma DirectCut(inodes: map<nat, Inode>, disk: Disk, marked: set<nat>, f: nat, blocklen: nat)
    requires RolesOK(inodes, disk, marked) && f in inodes
    ensures var i' := CutDirect(inodes[f], blocklen, NDIRECT);
      && Shrunk(inodes, disk, marked, inodes[f := i'], disk, marked - FreedDirect(inodes[f], blocklen, NDIRECT), f)
      && RolesOK(inodes[f := i'], disk, marked - FreedDirect(inodes[f], blocklen, NDIRECT))
      && SlotsCut(inodes[f], disk, i', disk, 0, NDIRECT, blocklen)
  {
    var i' := CutDirect(inodes[f], blocklen, NDIRECT);
    var inodes', freed := inodes[f := i'], FreedDirect(inodes[f], blocklen, NDIRECT);
    forall p
      ensures BlockAt(inodes', disk, p)
           == (if p.Dat? && p.f == f && blocklen <= p.n < NDIRECT then 0 else BlockAt(inodes, disk, p))
    {
    }
    forall p: Place | BlockAt(inodes, disk, p) != 0
      ensures BlockAt(inodes, disk, p) in freed <==> p.Dat? && p.f == f && blocklen <= p.n < NDIRECT
    {
      WhoseDirect(inodes, disk, marked, f, blocklen, NDIRECT, p);
    }
    assert BlockAt(inodes, disk, Ino(f)) == f;
    WhoseDirect(inodes, disk, marked, f, blocklen, NDIRECT, Ino(f));
    forall b | b in marked && NoRole(inodes, disk, b) ensures b !in freed {
      DirectHasRole(inodes, disk, f, blocklen, NDIRECT, b);
    }
    ShrunkRoles(inodes, disk, marked, inodes', disk, marked - freed, f);
  }

  lemma {:induction false} DirectHasRole(inodes: map<nat, Inode>, disk: Disk, f: nat, blocklen: nat, n: nat, b: nat)
    requires f in inodes && |inodes[f].direct| == NDIRECT && n <= NDIRECT && NoRole(inodes, disk, b)
    ensures b !in FreedDirect(inodes[f], blocklen, n)
  {
    if n > 0 {
      DirectHasRole(inodes, disk, f, blocklen, n - 1, b);
      assert BlockAt(inodes, disk, Dat(f, n - 1)) == inodes[f].direct[n - 1];
    }
  }

  // ----------------------------------------------------------- the indirect block

  function Words(b: seq<byte>): (w: seq<nat>)
    requires |b| == BLOCK
    ensures |w| == PERIND && forall j :: 0 <= j < PERIND ==> w[j] == WordAt(b, j) && w[j] < WORD
  {
    seq(PERIND, j requires 0 <= j < PERIND => WordAt(b, j))
  }

  /** The words of the indirect block that go. */
  function FreedWords(w: seq<nat>, blocklen: nat, n: nat): set<nat>
    requires |w| == PERIND && n <= PERIND
  {
    if n == 0 then {}
    else FreedWords(w, blocklen, n - 1) + if blocklen < NDIRECT + n - 1 && w[n - 1] != 0 then {w[n - 1]} else {}
  }

  function CutWords(w: seq<nat>, blocklen: nat, n: nat): (w': seq<nat>)
    requires |w| == PERIND && n <= PERIND
    ensures |w'| == PERIND
  {
    seq(PERIND, j requires 0 <= j < PERIND => if j < n && blocklen < NDIRECT + j then 0 else w[j])
  }

  ghost predicate AnyWord(w: seq<nat>, n: nat)
    requires n <= |w|
  {
    exists j :: 0 <= j < n && w[j] != 0
  }

  /** The loop over the indirect block, in a buffer. */
  method FreeWords(v: Volume, idbuf: seq<nat>, blocklen: nat)
      returns (idbuf': seq<nat>, hasnonzero: bool, iddirty: bool)
    requires |idbuf| == PERIND
    modifies v`marked
    ensures idbuf' == CutWords(idbuf, blocklen, PERIND)
    ensures v.marked == old(v.marked) - FreedWords(idbuf, blocklen, PERIND)
    ensures hasnonzero <==> AnyWord(idbuf', PERIND)
    ensures !iddirty ==> idbuf' == idbuf
  {
    idbuf', hasnonzero, iddirty := idbuf, false, false;
    for j := 0 to PERIND
      invariant idbuf' == CutWords(idbuf, blocklen, j) && v.marked == old(v.marked) - FreedWords(idbuf, blocklen, j)
      invariant (hasnonzero <==> AnyWord(idbuf', j)) && (!iddirty ==> idbuf' == idbuf)
    {
      ghost var was := idbuf';
      if blocklen < NDIRECT + j && idbuf'[j] != 0 {
        v.marked := v.marked - {idbuf'[j]};
        idbuf' := idbuf'[j := 0];
        iddirty := true;
      }
      assert idbuf' == CutWords(idbuf, blocklen, j + 1);
      assert AnyWord(idbuf', j) <==> AnyWord(was, j) by {
        assert forall i :: 0 <= i < j ==> idbuf'[i] == was[i];
      }
      if idbuf'[j] != 0 { hasnonzero := true; }
    }
  }

  lemma {:induction false} WhoseWord(inodes: map<nat, Inode>, disk: Disk, marked: set<nat>, f: nat, w: seq<nat>,
      blocklen: nat, n: nat, p: Place)
    requires RolesOK(inodes, disk, marked) && f in inodes && n <= PERIND && BlockAt(inodes, disk, p) != 0
    requires |w| == PERIND && forall j :: 0 <= j < PERIND ==> w[j] == Slot(inodes[f], disk, NDIRECT + j)
    ensures BlockAt(inodes, disk, p) in FreedWords(w, blocklen, n) <==>
            p.Dat? && p.f == f && NDIRECT <= p.n < NDIRECT + n && blocklen < p.n
    ensures 0 !in FreedWords(w, blocklen, n)
  {
    if n > 0 {
      WhoseWord(inodes, disk, marked, f, w, blocklen, n - 1, p);
      assert BlockAt(inodes, disk, Dat(f, NDIRECT + n - 1)) == w[n - 1];
    }
  }

  /** The indirect block after the loop: written back, or freed if nothing is left in it. */
  ghost predicate IndirectCut(inodes: map<nat, Inode>, disk: Disk, marked: set<nat>, inodes': map<nat, Inode>,
      disk': Disk, marked': set<nat>, f: nat, blocklen: nat)
  {
    && f in inodes && inodes[f].indirect != 0 && inodes[f].indirect < |disk| && DiskOK(disk)
    && var d := inodes[f].indirect;
       var w := Words(disk[d]);
       var w' := CutWords(w, blocklen, PERIND);
       if AnyWord(w', PERIND)
       then inodes' == inodes && Rewritten(disk, disk', d, w') && marked' == marked - FreedWords(w, blocklen, PERIND)
       else
         && inodes' == inodes[f := inodes[f].(indirect := 0)] && disk' == disk
         && marked' == marked - FreedWords(w, blocklen, PERIND) - {d}
  }

  /** One block holds those words now. */
  ghost predicate Rewritten(disk: Disk, disk': Disk, d: nat, w: seq<nat>)
    requires d < |disk| && |w| == PERIND
  {
    && |disk'| == |disk| && |disk'[d]| == BLOCK && disk' == disk[d := disk'[d]]
    && forall j :: 0 <= j < PERIND ==> WordAt(disk'[d], j) == w[j]
  }

  lemma IndirectRoles(inodes: map<nat, Inode>, disk: Disk, marked: set<nat>, inodes': map<nat, Inode>, disk': Disk,
                      marked': set<nat>, f: nat, blocklen: nat, p: Place)
    requires RolesOK(inodes, disk, marked) && IndirectCut(inodes, disk, marked, inodes', disk', marked', f, blocklen)
    ensures !(p.Ind? && p.f == f) ==>
      BlockAt(inodes', disk', p) ==
        if p.Dat? && p.f == f && NDIRECT <= p.n && blocklen < p.n then 0 else BlockAt(inodes, disk, p)
    ensures BlockAt(inodes', disk', Ind(f)) == 0 || BlockAt(inodes', disk', Ind(f)) == BlockAt(inodes, disk, Ind(f))
  {
    var d := inodes[f].indirect;
    var w := Words(disk[d]);
    var w' := CutWords(w, blocklen, PERIND);
    assert BlockAt(inodes, disk, Ind(f)) == d;
    if p.Dat? && p.f == f && NDIRECT <= p.n < MAXBLOCKS {
      var j := p.n - NDIRECT;
      assert w[j] == Slot(inodes[f], disk, p.n) && (!AnyWord(w', PERIND) ==> w'[j] == 0);
    } else if p.Dat? && p.f != f && p.f in inodes {
      assert BlockAt(inodes, disk, Ind(p.f)) == inodes[p.f].indirect;
      SlotFrame(inodes[p.f], disk, d, disk'[d], p.n);
    }
  }

  lemma {:induction false} WordHasRole(inodes: map<nat, Inode>, disk: Disk, f: nat, w: seq<nat>, blocklen: nat, n: nat,
      b: nat)
    requires f in inodes && n <= PERIND && NoRole(inodes, disk, b)
    requires |w| == PERIND && forall j :: 0 <= j < PERIND ==> w[j] == Slot(inodes[f], disk, NDIRECT + j)
    ensures b !in FreedWords(w, blocklen, n)
  {
    if n > 0 {
      WordHasRole(inodes, disk, f, w, blocklen, n - 1, b);
      assert BlockAt(inodes, disk, Dat(f, NDIRECT + n - 1)) == w[n - 1];
    }
  }

  lemma IndirectContents(inodes: map<nat, Inode>, disk: Disk, marked: set<nat>, inodes': map<nat, Inode>, disk': Disk,
                         marked': set<nat>, f: nat, blocklen: nat, g: nat, x: nat)
    requires RolesOK(inodes, disk, marked) && IndirectCut(inodes, disk, marked, inodes', disk', marked', f, blocklen)
    requires g in inodes
    ensures Content(inodes'[g], disk', x)
         == if Slot(inodes'[g], disk', x / BLOCK) == 0 then 0 else Content(inodes[g], disk, x)
  {
    var d := inodes[f].indirect;
    assert BlockAt(inodes, disk, Ind(f)) == d;
    IndirectRoles(inodes, disk, marked, inodes', disk', marked', f, blocklen, Dat(g, x / BLOCK));
    assert BlockAt(inodes, disk, Dat(g, x / BLOCK)) == Slot(inodes[g], disk, x / BLOCK);
    assert BlockAt(inodes', disk', Dat(g, x / BLOCK)) == Slot(inodes'[g], disk', x / BLOCK);
  }

  lemma IndirectNotIdle(inodes: map<nat, Inode>, disk: Disk, marked: set<nat>, inodes': map<nat, Inode>, disk': Disk,
                        marked': set<nat>, f: nat, blocklen: nat)
    requires RolesOK(inodes, disk, marked) && IndirectCut(inodes, disk, marked, inodes', disk', marked', f, blocklen)
    ensures NotIdle(inodes'[f], disk')
  {
    var w' := CutWords(Words(disk[inodes[f].indirect]), blocklen, PERIND);
    if AnyWord(w', PERIND) {
      var j :| 0 <= j < PERIND && w'[j] != 0;
      assert Slot(inodes'[f], disk', NDIRECT + j) == w'[j];
    }
  }

  lemma IndirectShrinks(inodes: map<nat, Inode>, disk: Disk, marked: set<nat>, inodes': map<nat, Inode>, disk': Disk,
                        marked': set<nat>, f: nat, blocklen: nat)
    requires RolesOK(inodes, disk, marked) && IndirectCut(inodes, disk, marked, inodes', disk', marked', f, blocklen)
    ensures Shrunk(inodes, disk, marked, inodes', disk', marked', f) && RolesOK(inodes', disk', marked')
    ensures SlotsCut(inodes[f], disk, inodes'[f], disk', NDIRECT, MAXBLOCKS, blocklen) && NotIdle(inodes'[f], disk')
  {
    var d := inodes[f].indirect;
    var w := Words(disk[d]);
    assert BlockAt(inodes, disk, Ind(f)) == d;
    forall p: Place ensures !(p.Ind? && p.f == f) ==>
      BlockAt(inodes', disk', p) ==
        if p.Dat? && p.f == f && NDIRECT <= p.n && blocklen < p.n then 0 else BlockAt(inodes, disk, p)
    {
      IndirectRoles(inodes, disk, marked, inodes', disk', marked', f, blocklen, p);
    }
    IndirectMarks(inodes, disk, marked, inodes', disk', marked', f, blocklen);
    IndirectNotIdle(inodes, disk, marked, inodes', disk', marked', f, blocklen);
    forall g, x: nat | g in inodes
      ensures Content(inodes'[g], disk', x)
           == if Slot(inodes'[g], disk', x / BLOCK) == 0 then 0 else Content(inodes[g], disk, x)
    {
      IndirectContents(inodes, disk, marked, inodes', disk', marked', f, blocklen, g, x);
    }
    ShrunkRoles(inodes, disk, marked, inodes', disk', marked', f);
    forall n: nat ensures Slot(inodes'[f], disk', n) == SlotCut(inodes[f], disk, NDIRECT, MAXBLOCKS, blocklen, n) {
      assert BlockAt(inodes', disk', Dat(f, n)) == Slot(inodes'[f], disk', n);
      assert BlockAt(inodes, disk, Dat(f, n)) == Slot(inodes[f], disk, n);
    }
  }

  lemma IndirectMarks(inodes: map<nat, Inode>, disk: Disk, marked: set<nat>, inodes': map<nat, Inode>, disk': Disk,
                      marked': set<nat>, f: nat, blocklen: nat)
    requires RolesOK(inodes, disk, marked) && IndirectCut(inodes, disk, marked, inodes', disk', marked', f, blocklen)
    ensures forall p :: BlockAt(inodes, disk, p) != 0 ==>
              (BlockAt(inodes, disk, p) in marked' <==> BlockAt(inodes', disk', p) != 0)
    ensures forall b :: b in marked && NoRole(inodes, disk, b) ==> b in marked'
    ensures 0 in marked' && marked' <= marked
  {
    var d := inodes[f].indirect;
    var w := Words(disk[d]);
    assert BlockAt(inodes, disk, Ind(f)) == d;
    assert forall j :: 0 <= j < PERIND ==> w[j] == Slot(inodes[f], disk, NDIRECT + j);
    forall p | BlockAt(inodes, disk, p) != 0
      ensures BlockAt(inodes, disk, p) in marked' <==> BlockAt(inodes', disk', p) != 0
    {
      WhoseWord(inodes, disk, marked, f, w, blocklen, PERIND, p);
      IndirectRoles(inodes, disk, marked, inodes', disk', marked', f, blocklen, p);
    }
    WhoseWord(inodes, disk, marked, f, w, blocklen, PERIND, Ind(f));
    forall b | b in marked && NoRole(inodes, disk, b) ensures b in marked' {
      WordHasRole(inodes, disk, f, w, blocklen, PERIND, b);
    }
  }

  // ------------------------------------------------------------------ the whole

  method CutDirectBlocks(v: Volume, k: nat, blocklen: nat)
    requires v.Valid() && k < |v.vnodes|
    modifies v
    ensures v.Valid() && SameVnodes(old(v.vnodes), v.vnodes) && SameFiles(old(v.inodes), v.inodes)
    ensures Shrunk(old(v.inodes), old(v.disk), old(v.marked), v.inodes, v.disk, v.marked, v.vnodes[k].ino)
    ensures SlotsCut(old(v.vnodes[k].inode), old(v.disk), v.vnodes[k].inode, v.disk, 0, NDIRECT, blocklen)
  {
    ghost var vs, is0, m0 := v.vnodes, v.inodes, v.marked;
    v.Facts();
    DirectCut(v.inodes, v.disk, v.marked, v.vnodes[k].ino, blocklen);
    FreeDirect(v, k, blocklen);
    VnodeChanged(vs, is0, v.disk, k, v.vnodes[k].inode);
    if v.vnodes == vs { assert v.inodes == is0; }
    ShrunkAccounted(is0, v.disk, m0, v.inodes, v.disk, v.marked, v.vnodes[k].ino, v.reserved);
    v.Seal();
  }

  method CutIndirectBlock(v: Volume, k: nat, blocklen: nat)
    requires v.Valid() && k < |v.vnodes|
    modifies v
    ensures v.Valid() && SameVnodes(old(v.vnodes), v.vnodes) && SameFiles(old(v.inodes), v.inodes)
    ensures Shrunk(old(v.inodes), old(v.disk), old(v.marked), v.inodes, v.disk, v.marked, v.vnodes[k].ino)
    ensures SlotsCut(old(v.vnodes[k].inode), old(v.disk), v.vnodes[k].inode, v.disk, NDIRECT, MAXBLOCKS, blocklen)
    ensures blocklen < MAXBLOCKS - 1 ==> NotIdle(v.vnodes[k].inode, v.disk)
  {
    var idblock := v.vnodes[k].inode.indirect;
    ghost var f := v.vnodes[k].ino;
    v.Facts();
    assert BlockAt(v.inodes, v.disk, Ind(f)) == idblock;
    if blocklen < NDIRECT + PERIND - 1 && idblock != 0 {
      ghost var is0, d0, m0 := v.inodes, v.disk, v.marked;
      NotAnInode(v.inodes, v.disk, v.marked, Ind(f));
      CutInBuffer(v, k, blocklen, idblock);
      IndirectShrinks(is0, d0, m0, v.inodes, v.disk, v.marked, f, blocklen);
      ShrunkAccounted(is0, d0, m0, v.inodes, v.disk, v.marked, f, v.reserved);
      v.Seal();
    } else {
      NothingShrinks(v.inodes, v.disk, v.marked, f);
    }
  }

  /** From reading the indirect block to writing it back or freeing it. */
  method CutInBuffer(v: Volume, k: nat, blocklen: nat, idblock: nat)
    requires VnodesOK(v.vnodes, v.inodes, v.disk) && DiskOK(v.disk) && k < |v.vnodes|
    requires idblock == v.vnodes[k].inode.indirect != 0 && idblock < |v.disk| && idblock !in v.inodes
    modifies v
    ensures IndirectCut(old(v.inodes), old(v.disk), old(v.marked), v.inodes, v.disk, v.marked, old(v.vnodes[k]).ino,
                        blocklen)
    ensures VnodesOK(v.vnodes, v.inodes, v.disk) && SameVnodes(old(v.vnodes), v.vnodes)
    ensures SameFiles(old(v.inodes), v.inodes)
  {
    var idbuf, hasnonzero, iddirty := FreeWords(v, Words(v.disk[idblock]), blocklen);
    if !hasnonzero {
      v.marked := v.marked - {idblock};
      var inode := v.vnodes[k].inode.(indirect := 0);
      VnodeChanged(v.vnodes, v.inodes, v.disk, k, inode);
      v.inodes := v.inodes[v.vnodes[k].ino := inode];
      v.vnodes := Changed(v.vnodes, k, inode);
    } else if iddirty {
      EncodedWords(idbuf, Encode(idbuf));
      VnodesFrame(v.vnodes, v.inodes, v.disk, idblock, Encode(idbuf));
      v.disk := v.disk[idblock := Encode(idbuf)];
    }
  }

  lemma NothingShrinks(inodes: map<nat, Inode>, disk: Disk, marked: set<nat>, f: nat)
    requires RolesOK(inodes, disk, marked) && f in inodes
    ensures Shrunk(inodes, disk, marked, inodes, disk, marked, f)
  {
  }

  method CutBlocks(v: Volume, k: nat, blocklen: nat)
    requires v.Valid() && k < |v.vnodes|
    modifies v
    ensures v.Valid() && SameVnodes(old(v.vnodes), v.vnodes) && SameFiles(old(v.inodes), v.inodes)
    ensures Truncated(old(v.inodes), old(v.disk), old(v.marked), v.inodes, v.disk, v.marked, v.vnodes[k].ino, blocklen)
  {
    ghost var i0, d0, m0, f := v.inodes, v.disk, v.marked, v.vnodes[k].ino;
    v.Known(k);
    CutDirectBlocks(v, k, blocklen);
    v.Known(k);
    ghost var i1, d1, m1 := v.inodes, v.disk, v.marked;
    CutIndirectBlock(v, k, blocklen);
    v.Known(k);
    ShrunkTwice(i0, d0, m0, i1, d1, m1, v.inodes, v.disk, v.marked, f);
    CutTwice(i0[f], d0, i1[f], d1, v.inodes[f], v.disk, blocklen);
  }

  lemma CutTwice(i0: Inode, d0: Disk, i1: Inode, d1: Disk, i2: Inode, d2: Disk, blocklen: nat)
    requires SlotsCut(i0, d0, i1, d1, 0, NDIRECT, blocklen) && SlotsCut(i1, d1, i2, d2, NDIRECT, MAXBLOCKS, blocklen)
    ensures SlotsCut(i0, d0, i2, d2, 0, MAXBLOCKS, blocklen)
  {
  }

  /** The inodes after the size of f is set. */
  ghost predicate Resized(inodes: map<nat, Inode>, inodes': map<nat, Inode>, f: nat, size: nat) {
    && f in inodes && inodes'.Keys == inodes.Keys && inodes'[f].size == size
    && forall g :: g in inodes ==>
         && inodes'[g].kind == inodes[g].kind && inodes'[g].links == inodes[g].links
         && (g != f ==> inodes'[g].size == inodes[g].size)
  }

  /** sfs_truncate.  The size is kept in 32 bits, and so is the length in blocks. */
  method Truncate(v: Volume, k: nat, len: nat)
    requires v.Valid() && k < |v.vnodes|
    modifies v
    ensures v.Valid() && SameVnodes(old(v.vnodes), v.vnodes)
    ensures Truncated(old(v.inodes), old(v.disk), old(v.marked), v.inodes, v.disk, v.marked, v.vnodes[k].ino,
                      BlockLen(len))
    ensures Resized(old(v.inodes), v.inodes, v.vnodes[k].ino, len % WORD)
  {
    ghost var i0, d0, m0, f := v.inodes, v.disk, v.marked, v.vnodes[k].ino;
    CutBlocks(v, k, BlockLen(len));
    v.Known(k);
    ghost var i1 := v.inodes;
    v.SetSize(k, len % WORD);
    SizedShrinks(i0, d0, m0, i1, v.inodes, v.disk, v.marked, f, len % WORD, BlockLen(len));
  }

  function BlockLen(len: nat): nat { ((len + BLOCK - 1) / BLOCK) % WORD }

  lemma SizedShrinks(inodes: map<nat, Inode>, disk: Disk, marked: set<nat>, i1: map<nat, Inode>, i2: map<nat, Inode>,
      disk': Disk, marked': set<nat>, f: nat, size: nat, blocklen: nat)
    requires Truncated(inodes, disk, marked, i1, disk', marked', f, blocklen) && SameFiles(inodes, i1)
    requires i2 == i1[f := i1[f].(size := size)]
    ensures Truncated(inodes, disk, marked, i2, disk', marked', f, blocklen) && Resized(inodes, i2, f, size)
  {
    forall p ensures BlockAt(i2, disk', p) == BlockAt(i1, disk', p) { }
    forall g, x: nat | g in i1 ensures Content(i2[g], disk', x) == Content(i1[g], disk', x) { }
  }

  /** Truncating to nothing frees every block of the file. */
  lemma TruncatedToNothing(inodes: map<nat, Inode>, disk: Disk, marked: set<nat>, inodes': map<nat, Inode>, disk': Disk,
                           marked': set<nat>, f: nat)
    requires Truncated(inodes, disk, marked, inodes', disk', marked', f, BlockLen(0))
    ensures inodes'[f].indirect == 0 && forall n: nat :: Slot(inodes'[f], disk', n) == 0
  {
    assert forall n: nat :: Slot(inodes'[f], disk', n) == SlotCut(inodes[f], disk, 0, MAXBLOCKS, 0, n) == 0;
  }

  /** No block past the new end is left exactly when the end is among the direct blocks, or
      the first block past it was never there. */
  lemma NothingLeftPastTheEnd(inodes: map<nat, Inode>, disk: Disk, marked: set<nat>, inodes': map<nat, Inode>,
      disk': Disk, marked': set<nat>, f: nat, blocklen: nat)
    requires Truncated(inodes, disk, marked, inodes', disk', marked', f, blocklen)
    ensures (forall n: nat :: blocklen <= n ==> Slot(inodes'[f], disk', n) == 0)
            <==> blocklen < NDIRECT || Slot(inodes[f], disk, blocklen) == 0
  {
    assert Slot(inodes'[f], disk', blocklen) == SlotCut(inodes[f], disk, 0, MAXBLOCKS, blocklen, blocklen);
    forall n: nat | blocklen < n ensures Slot(inodes'[f], disk', n) == 0 {
      assert Slot(inodes'[f], disk', n) == SlotCut(inodes[f], disk, 0, MAXBLOCKS, blocklen, n);
    }
  }

  /** The bytes from lo on, up to hi, are zero. */
  ghost predicate Zero(i: Inode, disk: Disk, lo: nat, hi: nat) {
    forall x: nat :: lo <= x < hi ==> Content(i, disk, x) == 0
  }

  ghost predicate ZeroFrom(i: Inode, disk: Disk, lo: nat) { forall x: nat :: lo <= x ==> Content(i, disk, x) == 0 }

  /** How many blocks, counted from the start of the file, a truncation may leave. */
  function KeptBlocks(blocklen: nat): nat { if blocklen < NDIRECT then blocklen else blocklen + 1 }

  lemma CutByte(inodes: map<nat, Inode>, disk: Disk, marked: set<nat>, inodes': map<nat, Inode>, disk': Disk,
                marked': set<nat>, f: nat, blocklen: nat, x: nat)
    requires Truncated(inodes, disk, marked, inodes', disk', marked', f, blocklen)
    ensures Content(inodes'[f], disk', x) == if x < KeptBlocks(blocklen) * BLOCK then Content(inodes[f], disk, x) else 0
  {
    var n := x / BLOCK;
    assert Slot(inodes'[f], disk', n) == SlotCut(inodes[f], disk, 0, MAXBLOCKS, blocklen, n);
    assert n >= MAXBLOCKS ==> Slot(inodes[f], disk, n) == 0;
    assert Keeps(blocklen, n) <==> x < KeptBlocks(blocklen) * BLOCK;
  }

  /** What is past the new length reads as zeros exactly when the old bytes there were zeros
      already: those in the rest of the last block, and, if the end is not among the direct
      blocks, those of one block more. */
  lemma TruncationLeavesZeros(inodes: map<nat, Inode>, disk: Disk, marked: set<nat>, inodes': map<nat, Inode>,
      disk': Disk, marked': set<nat>, f: nat, len: nat)
    requires Truncated(inodes, disk, marked, inodes', disk', marked', f, BlockLen(len))
    ensures ZeroFrom(inodes'[f], disk', len) <==> Zero(inodes[f], disk, len, KeptBlocks(BlockLen(len)) * BLOCK)
  {
    forall x: nat
      ensures Content(inodes'[f], disk', x)
           == if x < KeptBlocks(BlockLen(len)) * BLOCK then Content(inodes[f], disk, x) else 0
    {
      CutByte(inodes, disk, marked, inodes', disk', marked', f, BlockLen(len), x);
    }
  }
}
