/** SFS on its disk: how an inode maps a file's bytes to disk blocks, and the roles of
    blocks.  A volume is seen as the current inodes of its files (in memory where a vnode
    is loaded, on disk otherwise), the disk's blocks and the set of blocks marked in use. */
module SfsModel {

  import opened Bytes

  const BLOCK := 512
  const NDIRECT := 15
  const PERIND := 128
  const MAXBLOCKS := NDIRECT + PERIND

  /** The bytes an inode can map. */
  const MAXBYTES := MAXBLOCKS * BLOCK

  /** The largest volume on which a 32-bit byte offset reaches every block. */
  const MAXDISK := 0x80_0000

  const ROOT := 1                    // where the root directory's inode lies
  const FILE := 1
  const DIR := 2

  datatype Inode = Inode(size: nat, kind: nat, links: nat, direct: seq<nat>, indirect: nat)

  type Disk = seq<seq<byte>>

  /** A file in memory: struct sfs_vnode with the reference count of its vnode. */
  datatype Vnode = Vnode(ino: nat, inode: Inode, dirty: bool, refs: nat)

  ghost predicate DiskOK(disk: Disk) { |disk| < WORD && forall b :: 0 <= b < |disk| ==> |disk[b]| == BLOCK }

  ghost predicate InodeOK(i: Inode) {
    && |i.direct| == NDIRECT && i.size < WORD && i.kind < 0x1_0000 && i.links < 0x1_0000
    && i.indirect < WORD && forall n :: 0 <= n < NDIRECT ==> i.direct[n] < WORD
  }

  /** The n-th word of a block, 0 for a block that does not exist. */
  function Word(disk: Disk, b: nat, n: nat): nat
    requires n < PERIND
  {
    if b < |disk| && |disk[b]| == BLOCK then WordAt(disk[b], n) else 0
  }

  /** The disk block of a file's n-th block, 0 for none. */
  function Slot(i: Inode, disk: Disk, n: nat): nat {
    if n < NDIRECT then (if n < |i.direct| then i.direct[n] else 0)
    else if n < MAXBLOCKS && i.indirect != 0 then Word(disk, i.indirect, n - NDIRECT)
    else 0
  }

  /** The byte of a file at an offset: 0 where no block is mapped. */
  function Content(i: Inode, disk: Disk, x: nat): byte {
    var b := Slot(i, disk, x / BLOCK);
    if b != 0 && b < |disk| && |disk[b]| == BLOCK then disk[b][x % BLOCK] else 0
  }

  // ------------------------------------------------------------------------- roles

  /** What a block can be: a file's inode, its indirect block, or one of its data blocks. */
  datatype Place = Ino(f: nat) | Ind(f: nat) | Dat(f: nat, n: nat)

  function BlockAt(inodes: map<nat, Inode>, disk: Disk, p: Place): nat {
    if p.f !in inodes then 0
    else match p
      case Ino(f) => f
      case Ind(f) => inodes[f].indirect
      case Dat(f, n) => Slot(inodes[f], disk, n)
  }

  /** Each block has at most one role, and a block with a role is marked in use. */
  ghost predicate RolesOK(inodes: map<nat, Inode>, disk: Disk, marked: set<nat>) {
    && DiskOK(disk) && 0 in marked && (forall f :: f in inodes ==> f != 0 && InodeOK(inodes[f]))
    && (forall p, q :: BlockAt(inodes, disk, p) != 0 && BlockAt(inodes, disk, p) == BlockAt(inodes, disk, q) ==> p == q)
    && (forall p :: BlockAt(inodes, disk, p) != 0 ==>
          BlockAt(inodes, disk, p) in marked && BlockAt(inodes, disk, p) < |disk|)
  }

  ghost predicate NoRole(inodes: map<nat, Inode>, disk: Disk, b: nat) { forall p :: BlockAt(inodes, disk, p) != b }

  /** No block leaks: a block is in use exactly if it is reserved or has a role, and not both. */
  ghost predicate Accounted(inodes: map<nat, Inode>, disk: Disk, marked: set<nat>, reserved: set<nat>) {
    && 0 in reserved && reserved <= marked
    && (forall b {:trigger NoRole(inodes, disk, b)} :: b in reserved && b != 0 ==> NoRole(inodes, disk, b))
    && (forall b {:trigger NoRole(inodes, disk, b)} :: b in marked && b !in reserved ==> !NoRole(inodes, disk, b))
  }

  /** Every byte of every file is the same in both. */
  ghost predicate SameContents(inodes: map<nat, Inode>, disk: Disk, inodes': map<nat, Inode>, disk': Disk) {
    && inodes'.Keys == inodes.Keys
    && forall f, x: nat :: f in inodes ==> Content(inodes'[f], disk', x) == Content(inodes[f], disk, x)
  }

  ghost predicate SameRoles(inodes: map<nat, Inode>, disk: Disk, inodes': map<nat, Inode>, disk': Disk) {
    forall p :: BlockAt(inodes', disk', p) == BlockAt(inodes, disk, p)
  }

  /** One place has got a block, and nothing else has changed its place. */
  ghost predicate RoleAt(inodes: map<nat, Inode>, disk: Disk, inodes': map<nat, Inode>, disk': Disk, p: Place, b: nat) {
    && BlockAt(inodes, disk, p) == 0 && BlockAt(inodes', disk', p) == b
    && forall q :: q != p ==> BlockAt(inodes', disk', q) == BlockAt(inodes, disk, q)
  }

  ghost predicate WellFormed(inodes: map<nat, Inode>, disk: Disk) {
    DiskOK(disk) && forall f :: f in inodes ==> f != 0 && InodeOK(inodes[f])
  }

  lemma RolesKept(inodes: map<nat, Inode>, disk: Disk, marked: set<nat>, inodes': map<nat, Inode>, disk': Disk,
      marked': set<nat>)
    requires RolesOK(inodes, disk, marked) && SameRoles(inodes, disk, inodes', disk') && marked <= marked'
    requires WellFormed(inodes', disk') && |disk'| == |disk|
    ensures RolesOK(inodes', disk', marked')
  {
  }

  /** A block without a role is given one. */
  lemma RoleAdded(inodes: map<nat, Inode>, disk: Disk, marked: set<nat>, inodes': map<nat, Inode>, disk': Disk,
      p: Place, b: nat)
    requires RolesOK(inodes, disk, marked) && WellFormed(inodes', disk') && |disk'| == |disk|
    requires NoRole(inodes, disk, b) && b in marked && b < |disk|
    requires BlockAt(inodes', disk', p) == b
    requires forall q :: q != p ==> BlockAt(inodes', disk', q) == BlockAt(inodes, disk, q)
    ensures RolesOK(inodes', disk', marked)
  {
  }

  /** Roles are given up, and the blocks concerned may be unmarked. */
  lemma RolesDropped(inodes: map<nat, Inode>, disk: Disk, marked: set<nat>, inodes': map<nat, Inode>, disk': Disk,
      marked': set<nat>)
    requires RolesOK(inodes, disk, marked) && WellFormed(inodes', disk') && |disk'| == |disk| && 0 in marked'
    requires forall p :: BlockAt(inodes', disk', p) == 0 || BlockAt(inodes', disk', p) == BlockAt(inodes, disk, p)
    requires forall p :: BlockAt(inodes', disk', p) != 0 ==> BlockAt(inodes', disk', p) in marked'
    ensures RolesOK(inodes', disk', marked')
  {
  }

  // ---------------------------------------------------------------------- accounting

  lemma SameNoRole(inodes: map<nat, Inode>, disk: Disk, inodes': map<nat, Inode>, disk': Disk, b: nat)
    requires SameRoles(inodes, disk, inodes', disk')
    ensures NoRole(inodes', disk', b) <==> NoRole(inodes, disk, b)
  {
    if !NoRole(inodes, disk, b) {
      var p :| BlockAt(inodes, disk, p) == b;
      assert BlockAt(inodes', disk', p) == b;
    }
    if !NoRole(inodes', disk', b) {
      var p :| BlockAt(inodes', disk', p) == b;
      assert BlockAt(inodes, disk, p) == b;
    }
  }

  lemma AccountedKept(inodes: map<nat, Inode>, disk: Disk, marked: set<nat>, reserved: set<nat>,
      inodes': map<nat, Inode>, disk': Disk)
    requires Accounted(inodes, disk, marked, reserved) && SameRoles(inodes, disk, inodes', disk')
    ensures Accounted(inodes', disk', marked, reserved)
  {
    forall b: nat ensures NoRole(inodes', disk', b) <==> NoRole(inodes, disk, b) {
      SameNoRole(inodes, disk, inodes', disk', b);
    }
  }

  /** A block just allocated counts as reserved until it has a role. */
  lemma AccountedAlloc(inodes: map<nat, Inode>, disk: Disk, marked: set<nat>, reserved: set<nat>, b: nat)
    requires Accounted(inodes, disk, marked, reserved) && NoRole(inodes, disk, b)
    ensures Accounted(inodes, disk, marked + {b}, reserved + {b})
  {
  }

  lemma AccountedAdded(inodes: map<nat, Inode>, disk: Disk, marked: set<nat>, reserved: set<nat>,
      inodes': map<nat, Inode>, disk': Disk, p: Place, b: nat)
    requires Accounted(inodes, disk, marked, reserved + {b}) && b !in reserved && b != 0
    requires RoleAt(inodes, disk, inodes', disk', p, b)
    ensures Accounted(inodes', disk', marked, reserved)
  {
    forall c: nat | c != b && c != 0 ensures NoRole(inodes', disk', c) <==> NoRole(inodes, disk, c) {
      if !NoRole(inodes, disk, c) {
        var q :| BlockAt(inodes, disk, q) == c;
        assert BlockAt(inodes', disk', q) == c;
      }
      if !NoRole(inodes', disk', c) {
        var q :| BlockAt(inodes', disk', q) == c;
        assert BlockAt(inodes, disk, q) == c;
      }
    }
    assert !NoRole(inodes', disk', b);
  }

  /** Roles are given up: exactly the blocks concerned are unmarked. */
  lemma AccountedDropped(inodes: map<nat, Inode>, disk: Disk, marked: set<nat>, reserved: set<nat>,
      inodes': map<nat, Inode>, disk': Disk, marked': set<nat>)
    requires Accounted(inodes, disk, marked, reserved) && marked' <= marked && 0 in marked'
    requires forall p :: BlockAt(inodes', disk', p) == 0 || BlockAt(inodes', disk', p) == BlockAt(inodes, disk, p)
    requires forall p :: BlockAt(inodes, disk, p) != 0 && BlockAt(inodes, disk, p) in marked' ==>
               BlockAt(inodes', disk', p) != 0
    requires forall b :: b in marked && NoRole(inodes, disk, b) ==> b in marked'
    ensures Accounted(inodes', disk', marked', reserved)
  {
    forall b | b in reserved && b != 0 ensures NoRole(inodes', disk', b) {
      assert NoRole(inodes, disk, b);
      forall p ensures BlockAt(inodes', disk', p) != b { assert BlockAt(inodes, disk, p) != b; }
    }
    forall b | b in marked' && b !in reserved ensures !NoRole(inodes', disk', b) {
      assert !NoRole(inodes, disk, b);
      var p :| BlockAt(inodes, disk, p) == b;
      assert BlockAt(inodes', disk', p) == b;
    }
  }

  // ------------------------------------------------ changing one block of the disk

  /** A change to a block that is no indirect block moves nothing. */
  lemma SlotFrame(i: Inode, disk: Disk, d: nat, c: seq<byte>, n: nat)
    requires d < |disk| && |c| == |disk[d]| && d != i.indirect
    ensures Slot(i, disk[d := c], n) == Slot(i, disk, n)
  {
  }

  lemma ContentFrame(i: Inode, disk: Disk, d: nat, c: seq<byte>, x: nat)
    requires d < |disk| && |c| == |disk[d]| && d != i.indirect && d != Slot(i, disk, x / BLOCK)
    ensures Content(i, disk[d := c], x) == Content(i, disk, x)
  {
    SlotFrame(i, disk, d, c, x / BLOCK);
  }

  /** Clearing a block that is being allocated changes no file. */
  lemma AllocKeeps(inodes: map<nat, Inode>, disk: Disk, marked: set<nat>, b: nat)
    requires RolesOK(inodes, disk, marked) && b < |disk| && b !in marked
    ensures var disk' := disk[b := Zeros(BLOCK)];
      && RolesOK(inodes, disk', marked + {b})
      && SameContents(inodes, disk, inodes, disk') && SameRoles(inodes, disk, inodes, disk')
      && NoRole(inodes, disk', b) && b != 0
  {
    var disk' := disk[b := Zeros(BLOCK)];
    forall p ensures BlockAt(inodes, disk, p) != b && BlockAt(inodes, disk', p) == BlockAt(inodes, disk, p) {
      assert BlockAt(inodes, disk, p) != 0 ==> BlockAt(inodes, disk, p) in marked;
      if p.f in inodes && p.Dat? {
        assert BlockAt(inodes, disk, Ind(p.f)) == inodes[p.f].indirect;
        SlotFrame(inodes[p.f], disk, b, Zeros(BLOCK), p.n);
      }
    }
    forall f, x: nat | f in inodes ensures Content(inodes[f], disk', x) == Content(inodes[f], disk, x) {
      assert BlockAt(inodes, disk, Ind(f)) == inodes[f].indirect &&
             BlockAt(inodes, disk, Dat(f, x / BLOCK)) == Slot(inodes[f], disk, x / BLOCK);
      ContentFrame(inodes[f], disk, b, Zeros(BLOCK), x);
    }
    RolesKept(inodes, disk, marked, inodes, disk', marked + {b});
  }

  /** The n-th block of f reads as c, and everything else as before. */
  ghost predicate WroteBlock(inodes: map<nat, Inode>, disk: Disk, disk': Disk, f: nat, n: nat, c: seq<byte>)
    requires |c| == BLOCK
  {
    forall g, x: nat :: g in inodes ==> Content(inodes[g], disk', x) == Written(inodes[g], disk, g == f, n, c, x)
  }

  function Written(i: Inode, disk: Disk, here: bool, n: nat, c: seq<byte>, x: nat): byte
    requires |c| == BLOCK
  {
    if here && x / BLOCK == n then c[x % BLOCK] else Content(i, disk, x)
  }

  /** Writing a data block changes that block of that file only. */
  lemma WriteKeeps(inodes: map<nat, Inode>, disk: Disk, marked: set<nat>, f: nat, n: nat, c: seq<byte>)
    requires RolesOK(inodes, disk, marked) && f in inodes && |c| == BLOCK && Slot(inodes[f], disk, n) != 0
    ensures var d := Slot(inodes[f], disk, n);
      && d < |disk| && RolesOK(inodes, disk[d := c], marked) && SameRoles(inodes, disk, inodes, disk[d := c])
      && WroteBlock(inodes, disk, disk[d := c], f, n, c)
  {
    var d := Slot(inodes[f], disk, n);
    assert BlockAt(inodes, disk, Dat(f, n)) == d;
    var disk' := disk[d := c];
    forall p ensures BlockAt(inodes, disk', p) == BlockAt(inodes, disk, p) {
      if p.f in inodes && p.Dat? {
        assert BlockAt(inodes, disk, Ind(p.f)) == inodes[p.f].indirect;
        SlotFrame(inodes[p.f], disk, d, c, p.n);
      }
    }
    RolesKept(inodes, disk, marked, inodes, disk', marked);
    forall g, x: nat | g in inodes ensures Content(inodes[g], disk', x) == Written(inodes[g], disk, g == f, n, c, x) {
      assert BlockAt(inodes, disk, Ind(g)) == inodes[g].indirect;
      assert BlockAt(inodes, disk, Dat(g, x / BLOCK)) == Slot(inodes[g], disk, x / BLOCK);
      SlotFrame(inodes[g], disk, d, c, x / BLOCK);
      if !(g == f && x / BLOCK == n) { ContentFrame(inodes[g], disk, d, c, x); }
    }
  }

  // ---------------------------------------------------- giving a cleared block a role

  lemma SetDirectKeeps(inodes: map<nat, Inode>, disk: Disk, marked: set<nat>, f: nat, n: nat, b: nat)
    requires RolesOK(inodes, disk, marked) && f in inodes && n < NDIRECT && inodes[f].direct[n] == 0
    requires NoRole(inodes, disk, b) && b in marked && b < |disk| && disk[b] == Zeros(BLOCK)
    ensures var i' := inodes[f].(direct := inodes[f].direct[n := b]);
      && RolesOK(inodes[f := i'], disk, marked) && SameContents(inodes, disk, inodes[f := i'], disk)
      && Slot(i', disk, n) == b && RoleAt(inodes, disk, inodes[f := i'], disk, Dat(f, n), b)
  {
    var i' := inodes[f].(direct := inodes[f].direct[n := b]);
    var inodes' := inodes[f := i'];
    forall q | q != Dat(f, n) ensures BlockAt(inodes', disk, q) == BlockAt(inodes, disk, q) { }
    RoleAdded(inodes, disk, marked, inodes', disk, Dat(f, n), b);
    forall g, x: nat | g in inodes ensures Content(inodes'[g], disk, x) == Content(inodes[g], disk, x) { }
  }

  lemma FreshIndirect(inodes: map<nat, Inode>, disk: Disk, f: nat, b: nat, q: Place)
    requires f in inodes && inodes[f].indirect == 0 && q != Ind(f)
    requires forall n :: 0 <= n < PERIND ==> Word(disk, b, n) == 0
    ensures BlockAt(inodes[f := inodes[f].(indirect := b)], disk, q) == BlockAt(inodes, disk, q)
  {
    if q.Dat? && q.f == f && NDIRECT <= q.n < MAXBLOCKS { assert Word(disk, b, q.n - NDIRECT) == 0; }
  }

  lemma SetIndirectKeeps(inodes: map<nat, Inode>, disk: Disk, marked: set<nat>, f: nat, b: nat)
    requires RolesOK(inodes, disk, marked) && f in inodes && inodes[f].indirect == 0
    requires NoRole(inodes, disk, b) && b in marked && b < |disk| && disk[b] == Zeros(BLOCK) && b != 0
    ensures var i' := inodes[f].(indirect := b);
      && RolesOK(inodes[f := i'], disk, marked) && SameContents(inodes, disk, inodes[f := i'], disk)
      && RoleAt(inodes, disk, inodes[f := i'], disk, Ind(f), b)
      && forall n :: 0 <= n < PERIND ==> Word(disk, b, n) == 0
  {
    var i' := inodes[f].(indirect := b);
    var inodes' := inodes[f := i'];
    forall n | 0 <= n < PERIND ensures Word(disk, b, n) == 0 { ZeroWord(BLOCK, n); }
    forall q | q != Ind(f) ensures BlockAt(inodes', disk, q) == BlockAt(inodes, disk, q) {
      FreshIndirect(inodes, disk, f, b, q);
    }
    RoleAdded(inodes, disk, marked, inodes', disk, Ind(f), b);
    SameSlots(inodes, disk, inodes', disk);
  }

  /** Files whose data blocks are the same, on the same disk, have the same bytes. */
  lemma SameSlots(inodes: map<nat, Inode>, disk: Disk, inodes': map<nat, Inode>, disk': Disk)
    requires inodes'.Keys == inodes.Keys && disk' == disk
    requires forall g, n :: BlockAt(inodes', disk', Dat(g, n)) == BlockAt(inodes, disk, Dat(g, n))
    ensures SameContents(inodes, disk, inodes', disk')
  {
    forall g, x: nat | g in inodes ensures Content(inodes'[g], disk', x) == Content(inodes[g], disk, x) {
      assert BlockAt(inodes', disk', Dat(g, x / BLOCK)) == BlockAt(inodes, disk, Dat(g, x / BLOCK));
    }
  }

  /** Words of indirect blocks, after one word of f's is set. */
  lemma SetWordSlots(inodes: map<nat, Inode>, disk: Disk, marked: set<nat>, f: nat, k: nat, b: nat, q: Place)
    requires RolesOK(inodes, disk, marked) && f in inodes && inodes[f].indirect != 0 && k < PERIND && b < WORD
    ensures var d := inodes[f].indirect;
      && d < |disk|
      && BlockAt(inodes, disk[d := SetWord(disk[d], k, b)], q) ==
           if q == Dat(f, NDIRECT + k) then b else BlockAt(inodes, disk, q)
  {
    var d := inodes[f].indirect;
    assert BlockAt(inodes, disk, Ind(f)) == d;
    var disk' := disk[d := SetWord(disk[d], k, b)];
    if q.f in inodes && q.Dat? {
      if q.f == f {
        if NDIRECT <= q.n < MAXBLOCKS { SetWordAt(disk[d], k, b, q.n - NDIRECT); }
      } else {
        assert BlockAt(inodes, disk, Ind(q.f)) == inodes[q.f].indirect;
        SlotFrame(inodes[q.f], disk, d, SetWord(disk[d], k, b), q.n);
      }
    }
  }

  lemma SetWordKeeps(inodes: map<nat, Inode>, disk: Disk, marked: set<nat>, f: nat, k: nat, b: nat)
    requires RolesOK(inodes, disk, marked) && f in inodes && inodes[f].indirect != 0 && k < PERIND
    requires Word(disk, inodes[f].indirect, k) == 0
    requires NoRole(inodes, disk, b) && b in marked && b < |disk| && disk[b] == Zeros(BLOCK) && b != 0
    ensures var d := inodes[f].indirect;
      && d < |disk|
      && var disk' := disk[d := SetWord(disk[d], k, b)];
         && RolesOK(inodes, disk', marked)
         && SameContents(inodes, disk, inodes, disk') && Slot(inodes[f], disk', NDIRECT + k) == b
         && RoleAt(inodes, disk, inodes, disk', Dat(f, NDIRECT + k), b)
  {
    var d := inodes[f].indirect;
    assert BlockAt(inodes, disk, Ind(f)) == d;
    var disk' := disk[d := SetWord(disk[d], k, b)];
    forall q ensures BlockAt(inodes, disk', q) == if q == Dat(f, NDIRECT + k) then b else BlockAt(inodes, disk, q) {
      SetWordSlots(inodes, disk, marked, f, k, b, q);
    }
    RoleAdded(inodes, disk, marked, inodes, disk', Dat(f, NDIRECT + k), b);
    forall g, x: nat | g in inodes ensures Content(inodes[g], disk', x) == Content(inodes[g], disk, x) {
      assert BlockAt(inodes, disk', Dat(g, x / BLOCK)) == Slot(inodes[g], disk', x / BLOCK);
      assert BlockAt(inodes, disk, Dat(g, x / BLOCK)) == Slot(inodes[g], disk, x / BLOCK);
    }
  }

  // ------------------------------------------------------------------ inodes on disk

  /** The inode's words: size, type and link count, block numbers, and unused space. */
  function InodeWords(i: Inode): (w: seq<nat>)
    requires InodeOK(i)
    ensures |w| == PERIND && forall n :: 0 <= n < PERIND ==> w[n] < WORD
  {
    [i.size, i.kind * 0x1_0000 + i.links] + i.direct + [i.indirect] + seq(110, _ => 0)
  }

  function EncodeInode(i: Inode): (b: seq<byte>)
    requires InodeOK(i)
    ensures |b| == BLOCK
  {
    Encode(InodeWords(i))
  }

  function DecodeInode(b: seq<byte>): Inode
    requires |b| == BLOCK
  {
    Inode(WordAt(b, 0), WordAt(b, 1) / 0x1_0000, WordAt(b, 1) % 0x1_0000, DirectWords(b), WordAt(b, 17))
  }

  function DirectWords(b: seq<byte>): seq<nat>
    requires |b| == BLOCK
  {
    seq(NDIRECT, n requires 0 <= n < NDIRECT => WordAt(b, 2 + n))
  }

  lemma HalfWords(kind: nat, links: nat)
    requires kind < 0x1_0000 && links < 0x1_0000
    ensures (kind * 0x1_0000 + links) / 0x1_0000 == kind && (kind * 0x1_0000 + links) % 0x1_0000 == links
  {
  }

  lemma DecodeWords(b: seq<byte>, w: seq<nat>, i: Inode)
    requires |b| == BLOCK && |w| == PERIND && InodeOK(i) && forall n :: 0 <= n < PERIND ==> WordAt(b, n) == w[n]
    requires w[0] == i.size && w[1] == i.kind * 0x1_0000 + i.links && w[17] == i.indirect && w[2..17] == i.direct
    ensures DecodeInode(b) == i
  {
    HalfWords(i.kind, i.links);
    forall n | 0 <= n < NDIRECT ensures DirectWords(b)[n] == i.direct[n] {
      assert WordAt(b, 2 + n) == w[2 + n] == w[2..17][n];
    }
  }

  lemma InodeWordsAre(i: Inode, w: seq<nat>)
    requires InodeOK(i) && w == InodeWords(i)
    ensures w[0] == i.size && w[1] == i.kind * 0x1_0000 + i.links && w[17] == i.indirect && w[2..17] == i.direct
  {
  }

  /** An inode written to disk is read back the same. */
  lemma InodeRoundTrip(i: Inode)
    requires InodeOK(i)
    ensures DecodeInode(EncodeInode(i)) == i
  {
    InodeWordsAre(i, InodeWords(i));
    EncodedWords(InodeWords(i), EncodeInode(i));
    DecodeWords(EncodeInode(i), InodeWords(i), i);
  }

  lemma EncodedWords(w: seq<nat>, b: seq<byte>)
    requires |w| == PERIND && (forall n :: 0 <= n < PERIND ==> w[n] < WORD) && b == Encode(w)
    ensures forall n :: 0 <= n < PERIND ==> WordAt(b, n) == w[n]
  {
    forall n | 0 <= n < PERIND ensures WordAt(b, n) == w[n] { EncodeAt(w, n); }
  }

  predicate IsEmpty(i: Inode) {
    && i.size == i.kind == i.links == i.indirect == 0 && |i.direct| == NDIRECT
    && forall n :: 0 <= n < NDIRECT ==> i.direct[n] == 0
  }

  lemma ZeroDecode(b: seq<byte>)
    requires |b| == BLOCK && forall n :: 0 <= n < PERIND ==> WordAt(b, n) == 0
    ensures IsEmpty(DecodeInode(b))
  {
    forall n | 0 <= n < NDIRECT ensures DirectWords(b)[n] == 0 { assert WordAt(b, 2 + n) == 0; }
  }

  /** A cleared block is an inode with nothing in it. */
  lemma ZeroInode(b: seq<byte>)
    requires b == Zeros(BLOCK)
    ensures IsEmpty(DecodeInode(b))
  {
    ZeroWords(b);
    ZeroDecode(b);
  }

  lemma ZeroWords(b: seq<byte>)
    requires b == Zeros(BLOCK)
    ensures forall n :: 0 <= n < PERIND ==> WordAt(b, n) == 0
  {
    forall n | 0 <= n < PERIND ensures WordAt(b, n) == 0 { ZeroWord(BLOCK, n); }
  }

  /** Writing an inode to its block changes no file and no role. */
  lemma SyncKeeps(inodes: map<nat, Inode>, disk: Disk, marked: set<nat>, f: nat, c: seq<byte>)
    requires RolesOK(inodes, disk, marked) && f in inodes && |c| == BLOCK
    ensures f < |disk|
    ensures RolesOK(inodes, disk[f := c], marked) && SameContents(inodes, disk, inodes, disk[f := c])
    ensures SameRoles(inodes, disk, inodes, disk[f := c])
  {
    assert BlockAt(inodes, disk, Ino(f)) == f;
    var disk' := disk[f := c];
    forall p ensures BlockAt(inodes, disk', p) == BlockAt(inodes, disk, p) {
      if p.f in inodes && p.Dat? {
        assert BlockAt(inodes, disk, Ind(p.f)) == inodes[p.f].indirect;
        SlotFrame(inodes[p.f], disk, f, c, p.n);
      }
    }
    forall g, x: nat | g in inodes ensures Content(inodes[g], disk', x) == Content(inodes[g], disk, x) {
      assert BlockAt(inodes, disk, Ind(g)) == inodes[g].indirect;
      assert BlockAt(inodes, disk, Dat(g, x / BLOCK)) == Slot(inodes[g], disk, x / BLOCK);
      ContentFrame(inodes[g], disk, f, c, x);
    }
    RolesKept(inodes, disk, marked, inodes, disk', marked);
  }
}
