/** The on-disk format of SFS, byte by byte: what the structures of sfs.h look like in a block,
    in terms of a number as its bytes spell it, most significant first. */
module SfsLayout {

  import opened Bytes
  import opened SfsModel
  import opened SfsDirModel

  function BigEndian(b: seq<byte>): nat { if b == [] then 0 else BigEndian(b[..|b| - 1]) * 256 + b[|b| - 1] }

  lemma FourBytes(b: seq<byte>)
    requires |b| == 4
    ensures BigEndian(b) == Join(b[0], b[1], b[2], b[3])
  {
    var c := b[..3];
    var d := c[..2];
    assert d[..1] == [b[0]];
    assert BigEndian(d[..1]) == b[0];
    assert BigEndian(d) == Join(0, 0, b[0], b[1]);
    assert BigEndian(c) == BigEndian(d) * 256 + b[2];
  }

  lemma TwoBytes(b: seq<byte>)
    requires |b| == 2
    ensures BigEndian(b) == Join(0, 0, b[0], b[1])
  {
    assert b[..1] == [b[0]];
    assert BigEndian(b[..1]) == b[0];
  }

  /** A word in a buffer is the number its four bytes spell. */
  lemma WordIs(b: seq<byte>, i: nat)
    requires 4 * i + 4 <= |b|
    ensures WordAt(b, i) == BigEndian(b[4 * i..4 * i + 4])
  {
    FourBytes(b[4 * i..4 * i + 4]);
  }

  /** And its two halves those that two bytes spell. */
  lemma HalvesAre(b: seq<byte>, i: nat)
    requires 4 * i + 4 <= |b|
    ensures WordAt(b, i) / 0x1_0000 == BigEndian(b[4 * i..4 * i + 2])
    ensures WordAt(b, i) % 0x1_0000 == BigEndian(b[4 * i + 2..4 * i + 4])
  {
    TwoBytes(b[4 * i..4 * i + 2]);
    TwoBytes(b[4 * i + 2..4 * i + 4]);
    HalfWords(Join(0, 0, b[4 * i], b[4 * i + 1]), Join(0, 0, b[4 * i + 2], b[4 * i + 3]));
  }

  lemma WordsAreBigEndian()
    ensures WordBytes(0x0102_0304) == [1, 2, 3, 4] && WordAt([1, 2, 3, 4], 0) == 0x0102_0304
  {
  }

  /** An inode as it is read: size, type, link count, 15 direct blocks, the indirect block. */
  lemma InodeRead(b: seq<byte>, n: nat)
    requires |b| == BLOCK && n < NDIRECT
    ensures var i := DecodeInode(b);
      && i.size == BigEndian(b[0..4]) && i.kind == BigEndian(b[4..6]) && i.links == BigEndian(b[6..8])
      && i.direct[n] == BigEndian(b[8 + 4 * n..12 + 4 * n]) && i.indirect == BigEndian(b[68..72])
  {
    WordIs(b, 0);
    HalvesAre(b, 1);
    WordIs(b, 2 + n);
    WordIs(b, 17);
  }

  /** And as it is written, with the rest of the block zero. */
  lemma InodeWritten(i: Inode, n: nat, x: nat)
    requires InodeOK(i) && n < NDIRECT && 72 <= x < BLOCK
    ensures var b := EncodeInode(i);
      && BigEndian(b[0..4]) == i.size && BigEndian(b[4..6]) == i.kind && BigEndian(b[6..8]) == i.links
      && BigEndian(b[8 + 4 * n..12 + 4 * n]) == i.direct[n] && BigEndian(b[68..72]) == i.indirect
      && b[x] == 0
  {
    var b := EncodeInode(i);
    InodeRoundTrip(i);
    InodeRead(b, n);
    RestIsZero(i, x);
  }

  lemma ZeroBytes(b: seq<byte>, x: nat)
    requires x / 4 * 4 + 4 <= |b| && WordAt(b, x / 4) == 0
    ensures b[x] == 0
  {
    var k := x / 4;
    assert x == 4 * k || x == 4 * k + 1 || x == 4 * k + 2 || x == 4 * k + 3;
  }

  lemma RestIsZero(i: Inode, x: nat)
    requires InodeOK(i) && 72 <= x < BLOCK
    ensures EncodeInode(i)[x] == 0
  {
    EncodeAt(InodeWords(i), x / 4);
    ZeroBytes(EncodeInode(i), x);
  }

  /** A directory entry: the inode number, the name, and zeros to its end. */
  lemma EntryWritten(ino: nat, name: seq<byte>)
    requires ino < WORD && |name| < NAMELEN
    ensures var e := Unparse(ino, name);
      && BigEndian(e[0..4]) == ino && e[4..4 + |name|] == name
      && forall k :: 4 + |name| <= k < ENTRY ==> e[k] == 0
  {
    var e := Unparse(ino, name);
    WordRoundTrip(ino);
    SameWord(e, 0, WordBytes(ino), 0);
    WordIs(e, 0);
  }

  /** Where byte x of a file is: in the direct block for it, or in the block that the
      indirect block names for it; a block number of 0 stands for zeros. */
  lemma ByteIs(i: Inode, disk: Disk, x: nat)
    requires DiskOK(disk) && InodeOK(i)
    ensures var n, at := x / BLOCK, x % BLOCK;
      && (n < 15 && i.direct[n] == 0 ==> Content(i, disk, x) == 0)
      && (n < 15 && 0 < i.direct[n] < |disk| ==> Content(i, disk, x) == disk[i.direct[n]][at])
      && (15 <= n < 143 && 0 < i.indirect < |disk| ==>
            var k := BigEndian(disk[i.indirect][4 * (n - 15)..4 * (n - 15) + 4]);
            && (k == 0 ==> Content(i, disk, x) == 0)
            && (0 < k < |disk| ==> Content(i, disk, x) == disk[k][at]))
      && (15 <= n && i.indirect == 0 ==> Content(i, disk, x) == 0)
      && (143 <= n ==> Content(i, disk, x) == 0)
  {
    var n := x / BLOCK;
    if 15 <= n < 143 && 0 < i.indirect < |disk| { WordIs(disk[i.indirect], n - 15); }
  }
}
