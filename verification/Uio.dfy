/** Transfers between a kernel buffer and the memory described by a list of iovecs. */
module Uio {

  import opened Bytes

  /** len is what is left of the buffer.  Of a buffer to write from, data is what is left
      in it; of a buffer to read into, data is what has been stored in it. */
  datatype Iovec = Iovec(len: nat, data: seq<byte>)

  function Room(iov: seq<Iovec>): nat { if iov == [] then 0 else iov[0].len + Room(iov[1..]) }

  function Flat(iov: seq<Iovec>): seq<byte> { if iov == [] then [] else iov[0].data + Flat(iov[1..]) }

  lemma {:induction false} FlatLength(iov: seq<Iovec>)
    requires forall i :: 0 <= i < |iov| ==> |iov[i].data| == iov[i].len
    ensures |Flat(iov)| == Room(iov)
  {
    if iov != [] { FlatLength(iov[1..]); }
  }

  lemma {:induction false} FlatAppend(iov: seq<Iovec>, v: Iovec)
    ensures Flat(iov + [v]) == Flat(iov) + v.data
  {
    if iov != [] {
      assert (iov + [v])[1..] == iov[1..] + [v];
      FlatAppend(iov[1..], v);
    } else {
      assert [v][1..] == [];
    }
  }

  lemma {:induction false} FlatEmpty(iov: seq<Iovec>)
    requires forall i :: 0 <= i < |iov| ==> iov[i].data == []
    ensures Flat(iov) == []
  {
    if iov != [] { FlatEmpty(iov[1..]); }
  }

  lemma WithoutTail(a: seq<byte>, rest: seq<byte>, b: seq<byte>, all: seq<byte>)
    requires a + rest == b + all && |rest| <= |all|
    ensures a == b + all[..|all| - |rest|]
  {
    assert a == (a + rest)[..|a|];
    assert (b + all)[..|a|] == b + all[..|all| - |rest|];
  }

  lemma MoreZeros(a: seq<byte>, b: seq<byte>, c: seq<byte>, m: nat, amt: nat, n: nat)
    requires b == a + Zeros(m) && n <= amt && c == b + Zeros(amt)[..n]
    ensures c == a + Zeros(m + n)
  {
    assert Zeros(m) + Zeros(amt)[..n] == Zeros(m + n);
  }

  class Uio {
    const writing: bool
    var iov: seq<Iovec>
    var offset: nat
    var resid: nat
    var passed: seq<Iovec>             // the iovecs already used up

    /** uio_kinit: one buffer, to write from or to read into. */
    constructor Kinit(w: bool, len: nat, data: seq<byte>, pos: nat)
      requires |data| == if w then len else 0
      ensures Valid() && writing == w && offset == pos && resid == len
      ensures Pending() == data && Stored() == data
    {
      writing := w;
      iov, offset, resid, passed := [Iovec(len, data)], pos, len, [];
      new;
      assert Flat([Iovec(len, data)]) == data + Flat([]);
    }

    ghost predicate Valid()
      reads this
    {
      && resid <= Room(iov)
      && (writing ==> forall i :: 0 <= i < |iov| ==> |iov[i].data| == iov[i].len)
      && (!writing ==> forall i :: 0 < i < |iov| ==> iov[i].data == [])
    }

    /** The bytes still to be written, at least resid of them. */
    function Pending(): seq<byte>
      reads this
    {
      Flat(iov)
    }

    /** The bytes read so far, in order. */
    function Stored(): seq<byte>
      reads this
    {
      Flat(passed) + Flat(iov)
    }

    method NextIovec()
      requires Valid() && resid > 0 && iov != [] && iov[0].len == 0
      modifies this`iov, this`passed
      ensures Valid() && iov == old(iov)[1..] && iov != []
      ensures Pending() == old(if writing then Pending() else Flat(iov[1..]))
      ensures Stored() == old(Stored()) && Room(iov) == old(Room(iov))
    {
      FlatAppend(passed, iov[0]);
      passed := passed + [iov[0]];
      iov := iov[1..];
    }

    /** One pass of the loop of uiomove with a buffer that is not used up: reading. */
    method Store(b: seq<byte>)
      requires Valid() && !writing && iov != [] && 0 < |b| <= iov[0].len && |b| <= resid
      modifies this`iov, this`offset, this`resid
      ensures Valid() && Stored() == old(Stored()) + b && |iov| == |old(iov)|
      ensures offset == old(offset) + |b| && resid == old(resid) - |b| && Room(iov) == old(Room(iov)) - |b|
    {
      var v := iov[0];
      FlatEmpty(iov[1..]);
      iov := [Iovec(v.len - |b|, v.data + b)] + iov[1..];
      assert iov[1..] == old(iov)[1..];
      resid := resid - |b|;
      offset := offset + |b|;
    }

    /** And writing. */
    method Fetch(n: nat) returns (b: seq<byte>)
      requires Valid() && writing && iov != [] && 0 < n <= iov[0].len && n <= resid
      modifies this`iov, this`offset, this`resid
      ensures Valid() && |b| == n && old(Pending()) == b + Pending() && |iov| == |old(iov)|
      ensures offset == old(offset) + n && resid == old(resid) - n && Room(iov) == old(Room(iov)) - n
    {
      var v := iov[0];
      b := v.data[..n];
      iov := [Iovec(v.len - n, v.data[n..])] + iov[1..];
      assert iov[1..] == old(iov)[1..] && v.data == b + v.data[n..];
      resid := resid - n;
      offset := offset + n;
    }

    /** How many bytes uiomove may be asked for: any number if the residue is all the room
        there is, and otherwise no more than the residue, which would wrap. */
    ghost predicate MayMove(n: nat)
      reads this
    {
      n <= resid || resid == Room(iov)
    }

    /** What has gone by after n bytes were asked for: no more than the residue. */
    twostate predicate Advanced(n: nat)
      reads this
    {
      && resid == (if n <= old(resid) then old(resid) - n else 0)
      && offset + resid == old(offset + resid) && Room(iov) - resid == old(Room(iov) - resid)
    }

    /** uiomove, reading: the buffer goes to the iovecs. */
    method MoveOut(ptr: seq<byte>)
      requires Valid() && !writing && MayMove(|ptr|)
      modifies this
      ensures Valid() && Advanced(|ptr|)
      ensures Stored() == old(Stored()) + ptr[..old(resid) - resid]
    {
      var rest := ptr;
      while |rest| > 0 && resid > 0
        invariant Valid() && |rest| <= |ptr| && MayMove(|rest|)
        invariant Stored() + rest == old(Stored()) + ptr && resid - |rest| == old(resid) - |ptr|
        invariant offset + resid == old(offset + resid) && Room(iov) - resid == old(Room(iov) - resid)
        decreases |iov|, |rest|
      {
        var size := iov[0].len;
        if size > |rest| { size := |rest|; }
        if size == 0 {
          NextIovec();
          continue;
        }
        ghost var was := Stored();
        Store(rest[..size]);
        assert was + rest == (was + rest[..size]) + rest[size..];
        rest := rest[size..];
      }
      WithoutTail(Stored(), rest, old(Stored()), ptr);
    }

    /** uiomove, writing: the buffer comes from the iovecs. */
    method MoveIn(n: nat) returns (ptr: seq<byte>)
      requires Valid() && writing && MayMove(n)
      modifies this
      ensures Valid() && Advanced(n) && |ptr| == old(resid) - resid && old(Pending()) == ptr + Pending()
    {
      ptr := [];
      while |ptr| < n && resid > 0
        invariant Valid() && |ptr| <= n && MayMove(n - |ptr|)
        invariant old(Pending()) == ptr + Pending() && resid == old(resid) - |ptr|
        invariant offset + resid == old(offset + resid) && Room(iov) - resid == old(Room(iov) - resid)
        decreases |iov|, n - |ptr|
      {
        var size := iov[0].len;
        if size > n - |ptr| { size := n - |ptr|; }
        if size == 0 {
          NextIovec();
          continue;
        }
        ghost var was := Pending();
        var b := Fetch(size);
        assert ptr + was == (ptr + b) + Pending();
        ptr := ptr + b;
      }
    }

    /** uiomovezeros. */
    method MoveZeros(n: nat)
      requires Valid() && !writing && MayMove(n)
      modifies this
      ensures Valid() && Advanced(n) && Stored() == old(Stored()) + Zeros(old(resid) - resid)
    {
      var left: nat := n;
      while left > 0
        invariant Valid() && left <= n && MayMove(left) && Advanced(n - left)
        invariant Stored() == old(Stored()) + Zeros(old(resid) - resid)
      {
        var amt := if 16 > left then left else 16;
        ghost var now, was := resid, Stored();
        MoveOut(Zeros(amt));
        MoreZeros(old(Stored()), was, Stored(), old(resid) - now, amt, now - resid);
        left := left - amt;
      }
    }
  }
}
