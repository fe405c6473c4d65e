/** The directory of a volume: its entries as they lie in the bytes of the root directory
    file, the names in use, and how many times each file is named. */
module SfsDirModel {

  import opened Bytes
  import opened SfsModel
  import opened SfsTransfer

  const ENTRY := 64
  const NAMELEN := 60

  datatype Entry = Entry(ino: nat, name: seq<byte>)

  /** A C string: the bytes before the first zero. */
  function CString(b: seq<byte>): seq<byte> { if b == [] || b[0] == 0 then [] else [b[0]] + CString(b[1..]) }

  ghost predicate NoNul(s: seq<byte>) { forall i :: 0 <= i < |s| ==> s[i] != 0 }

  lemma {:induction false} CStringOf(name: seq<byte>, rest: seq<byte>)
    requires NoNul(name) && (rest == [] || rest[0] == 0)
    ensures CString(name + rest) == name
  {
    if name == [] {
      assert name + rest == rest;
    } else {
      assert (name + rest)[1..] == name[1..] + rest;
      CStringOf(name[1..], rest);
    }
  }

  /** struct sfs_dir; the last byte of the name counts as zero. */
  function Parse(e: seq<byte>): Entry
    requires |e| == ENTRY
  {
    Entry(WordAt(e, 0), CString(e[4..ENTRY - 1]))
  }

  function Unparse(ino: nat, name: seq<byte>): (e: seq<byte>)
    requires ino < WORD && |name| < NAMELEN
    ensures |e| == ENTRY
  {
    WordBytes(ino) + name + Zeros(NAMELEN - |name|)
  }

  /** What is written as an entry is read back as one. */
  lemma EntryRoundTrip(ino: nat, name: seq<byte>)
    requires ino < WORD && |name| < NAMELEN && NoNul(name)
    ensures Parse(Unparse(ino, name)) == Entry(ino, name)
  {
    var e := Unparse(ino, name);
    WordRoundTrip(ino);
    SameWord(e, 0, WordBytes(ino), 0);
    assert e[4..ENTRY - 1] == name + Zeros(NAMELEN - 1 - |name|);
    CStringOf(name, Zeros(NAMELEN - 1 - |name|));
  }

  function EntryAt(i: Inode, disk: Disk, s: nat): Entry { Parse(Range(i, disk, s * ENTRY, ENTRY)) }

  /** The directory: its slots in order, used or free. */
  function Entries(i: Inode, disk: Disk): (d: seq<Entry>)
    ensures |d| == i.size / ENTRY && forall s :: 0 <= s < |d| ==> d[s] == EntryAt(i, disk, s)
  {
    seq(i.size / ENTRY, s requires s >= 0 => EntryAt(i, disk, s))
  }

  // ----------------------------------------------------------------------- names

  /** The names in use are all different. */
  ghost predicate Distinct(d: seq<Entry>) {
    forall s, t :: 0 <= s < t < |d| && d[s].ino != 0 && d[t].ino != 0 ==> d[s].name != d[t].name
  }

  ghost predicate Unused(d: seq<Entry>, name: seq<byte>) {
    forall s :: 0 <= s < |d| && d[s].ino != 0 ==> d[s].name != name
  }

  /** Slot s holds e, at the end if there was no such slot. */
  function Put(d: seq<Entry>, s: nat, e: Entry): seq<Entry>
    requires s <= |d|
  {
    if s < |d| then d[s := e] else d + [e]
  }

  function Count(d: seq<Entry>, f: nat): nat {
    if d == [] then 0 else Count(d[..|d| - 1], f) + if d[|d| - 1].ino == f then 1 else 0
  }

  lemma {:induction false} CountPut(d: seq<Entry>, s: nat, e: Entry, f: nat)
    requires s <= |d|
    ensures Count(Put(d, s, e), f) ==
            Count(d, f) + (if e.ino == f then 1 else 0) - (if s < |d| && d[s].ino == f then 1 else 0)
  {
    var d' := Put(d, s, e);
    if s == |d| {
      assert d'[..|d'| - 1] == d;
    } else if s == |d| - 1 {
      assert d'[..|d'| - 1] == d[..|d| - 1];
    } else {
      assert d'[..|d'| - 1] == Put(d[..|d| - 1], s, e);
      CountPut(d[..|d| - 1], s, e, f);
    }
  }

  lemma {:induction false} CountBound(d: seq<Entry>, f: nat)
    ensures Count(d, f) <= |d|
    ensures Count(d, f) == 0 <==> forall s :: 0 <= s < |d| ==> d[s].ino != f
  {
    if d != [] {
      var rest := d[..|d| - 1];
      CountBound(rest, f);
      assert forall s :: 0 <= s < |rest| ==> rest[s] == d[s];
    }
  }

  lemma PutDistinct(d: seq<Entry>, s: nat, e: Entry)
    requires Distinct(d) && s <= |d| && (e.ino == 0 || Unused(d, e.name))
    ensures Distinct(Put(d, s, e))
  {
  }

  // ---------------------------------------------------------------- the directory file

  /** Every entry in use is of a file there is, and every file is named as often as its
      link count says; but for f, which is named `more` times more. */
  ghost predicate LinksOK(inodes: map<nat, Inode>, d: seq<Entry>, f: nat, more: int) {
    && (forall s :: 0 <= s < |d| && d[s].ino != 0 ==> d[s].ino in inodes && d[s].ino != ROOT)
    && (forall g :: g in inodes && g != ROOT ==> inodes[g].kind == FILE)
    && (forall g :: g in inodes && g != ROOT ==> inodes[g].links + (if g == f then more else 0) == Count(d, g))
  }

  ghost predicate RootOK(inodes: map<nat, Inode>) {
    && ROOT in inodes && inodes[ROOT].kind == DIR && inodes[ROOT].size % ENTRY == 0 && inodes[ROOT].size <= MAXBYTES
    && inodes[ROOT].links > 0 && 0 !in inodes
  }

  ghost predicate DirBut(inodes: map<nat, Inode>, disk: Disk, f: nat, more: int) {
    RootOK(inodes) && Distinct(Entries(inodes[ROOT], disk)) && LinksOK(inodes, Entries(inodes[ROOT], disk), f, more)
  }

  /** Live names differ, and link counts are the numbers of slots naming the files. */
  ghost predicate DirOK(inodes: map<nat, Inode>, disk: Disk) { DirBut(inodes, disk, 0, 0) }

  lemma SameEntries(i: Inode, disk: Disk, i': Inode, disk': Disk)
    requires i'.size == i.size && forall x: nat :: Content(i', disk', x) == Content(i, disk, x)
    ensures Entries(i', disk') == Entries(i, disk)
  {
    var n := i.size / ENTRY;
    forall s | 0 <= s < n ensures Entries(i', disk')[s] == Entries(i, disk)[s] {
      assert Range(i', disk', s * ENTRY, ENTRY) == Range(i, disk, s * ENTRY, ENTRY);
    }
  }

  /** An entry's bytes written at its place, the size grown if it is at the end. */
  lemma EntryPut(i: Inode, disk: Disk, i': Inode, disk': Disk, s: nat, e: seq<byte>)
    requires |e| == ENTRY && i.size % ENTRY == 0 && s <= i.size / ENTRY
    requires i'.size == if s * ENTRY + ENTRY > i.size then s * ENTRY + ENTRY else i.size
    requires forall x: nat :: Content(i', disk', x) == Splice(i, disk, true, s * ENTRY, e, x)
    ensures Entries(i', disk') == Put(Entries(i, disk), s, Parse(e))
  {
    var d, d' := Entries(i, disk), Entries(i', disk');
    assert |d'| == |Put(d, s, Parse(e))|;
    forall t | 0 <= t < |d'| ensures d'[t] == Put(d, s, Parse(e))[t] { EntryPutAt(i, disk, i', disk', s, e, t); }
  }

  lemma EntryPutAt(i: Inode, disk: Disk, i': Inode, disk': Disk, s: nat, e: seq<byte>, t: nat)
    requires |e| == ENTRY && forall x: nat :: Content(i', disk', x) == Splice(i, disk, true, s * ENTRY, e, x)
    ensures EntryAt(i', disk', t) == if t == s then Parse(e) else EntryAt(i, disk, t)
  {
    var r := Range(i', disk', t * ENTRY, ENTRY);
    if t == s {
      assert r == e;
    } else {
      assert r == Range(i, disk, t * ENTRY, ENTRY);
    }
  }

  /** A live entry lies in a block that the directory maps. */
  lemma LiveIsMapped(i: Inode, disk: Disk, s: nat)
    requires EntryAt(i, disk, s).ino != 0
    ensures Slot(i, disk, s * ENTRY / BLOCK) != 0 && s * ENTRY / BLOCK < MAXBLOCKS
  {
    var r := Range(i, disk, s * ENTRY, ENTRY);
    if Slot(i, disk, s * ENTRY / BLOCK) == 0 {
      forall k | 0 <= k < 4 ensures r[k] == 0 {
        assert r[k] == Content(i, disk, s * ENTRY + k);
        assert (s * ENTRY + k) / BLOCK == s * ENTRY / BLOCK;
      }
    }
  }
}
