/** The bitmap of a file system's blocks: an array of bytes, refined to the set of bits
    marked. */
module Bitmap {

  import opened Arithmetic

  const BITS := 8

  function Mask(offset: nat): bv8
    requires offset < BITS
  {
    if offset == 0 then 1 else if offset == 1 then 2 else if offset == 2 then 4 else if offset == 3 then 8
    else if offset == 4 then 16 else if offset == 5 then 32 else if offset == 6 then 64 else 128
  }

  predicate Bit(w: bv8, offset: nat)
    requires offset < BITS
  {
    w & Mask(offset) != 0
  }

  lemma SetBit(w: bv8, i: nat, j: nat)
    requires i < BITS && j < BITS
    ensures Bit(w | Mask(i), j) <==> i == j || Bit(w, j)
  {
  }

  lemma ClearBit(w: bv8, i: nat, j: nat)
    requires i < BITS && j < BITS
    ensures Bit(w & !Mask(i), j) <==> i != j && Bit(w, j)
  {
  }

  lemma AllBits(w: bv8)
    ensures w == 0xff <==> forall j :: 0 <= j < BITS ==> Bit(w, j)
  {
    if forall j :: 0 <= j < BITS ==> Bit(w, j) {
      assert Bit(w, 0) && Bit(w, 1) && Bit(w, 2) && Bit(w, 3) && Bit(w, 4) && Bit(w, 5) && Bit(w, 6) && Bit(w, 7);
    }
  }

  class Bitmap {
    const nbits: nat
    const v: array<bv8>

    /** Bits past the end are set, so that they are never handed out. */
    ghost predicate Valid()
      reads v
    {
      && v.Length == DivRoundUp(nbits, BITS)
      && forall i :: nbits <= i < v.Length * BITS ==> IsMarked(i)
    }

    ghost predicate IsMarked(i: nat)
      requires i / BITS < v.Length
      reads v
    {
      Bit(v[i / BITS], i % BITS)
    }

    /** The bits marked. */
    ghost function Marked(): set<nat>
      requires Valid()
      reads v
    {
      set i | 0 <= i < nbits && IsMarked(i)
    }

    constructor (n: nat)
      ensures Valid() && nbits == n && fresh(v) && Marked() == {}
    {
      nbits := n;
      var words := DivRoundUp(n, BITS);
      v := new bv8[words](_ => 0);
      new;
      if words > n / BITS {
        var ix := words - 1;
        var overbits := n - ix * BITS;
        MarkRest(ix, overbits);
      }
    }

    method MarkRest(ix: nat, overbits: nat)
      requires ix < v.Length && overbits <= BITS && forall j :: 0 <= j < BITS ==> !Bit(v[ix], j)
      modifies v
      ensures forall k :: 0 <= k < v.Length && k != ix ==> v[k] == old(v[k])
      ensures forall j :: 0 <= j < BITS ==> (Bit(v[ix], j) <==> overbits <= j)
    {
      for j := overbits to BITS
        invariant forall k :: 0 <= k < v.Length && k != ix ==> v[k] == old(v[k])
        invariant forall i :: 0 <= i < BITS ==> (Bit(v[ix], i) <==> overbits <= i < j)
      {
        ghost var w := v[ix];
        v[ix] := v[ix] | Mask(j);
        forall i | 0 <= i < BITS ensures Bit(v[ix], i) <==> overbits <= i < j + 1 { SetBit(w, j, i); }
      }
    }

    /** The lowest bit not marked, now marked; ENOSPC if there is none. */
    method Alloc() returns (found: bool, index: nat)
      requires Valid()
      modifies v
      ensures Valid()
      ensures !found ==> (forall i :: 0 <= i < nbits ==> i in Marked()) && Marked() == old(Marked())
      ensures found ==> index < nbits && index !in old(Marked()) && Marked() == old(Marked()) + {index}
      ensures found ==> forall i :: 0 <= i < index ==> i in old(Marked())
    {
      for ix := 0 to v.Length
        invariant Valid() && Marked() == old(Marked()) && forall k :: 0 <= k < v.Length ==> v[k] == old(v[k])
        invariant forall i :: 0 <= i < ix * BITS ==> IsMarked(i)
      {
        AllBits(v[ix]);
        if v[ix] != 0xff {
          var offset := FirstClear(v[ix]);
          index := ix * BITS + offset;
          assert index / BITS == ix && index % BITS == offset;
          forall i | 0 <= i < index ensures IsMarked(i) { assert i / BITS == ix ==> i % BITS < offset; }
          assert !IsMarked(index);
          SetAt(index);
          return true, index;
        }
        forall i | 0 <= i < (ix + 1) * BITS ensures IsMarked(i) { assert i < ix * BITS || i / BITS == ix; }
      }
      found, index := false, 0;
    }

    static method FirstClear(w: bv8) returns (offset: nat)
      requires exists j :: 0 <= j < BITS && !Bit(w, j)
      ensures offset < BITS && !Bit(w, offset) && forall j :: 0 <= j < offset ==> Bit(w, j)
    {
      offset := 0;
      while Bit(w, offset)
        invariant offset < BITS && forall j :: 0 <= j < offset ==> Bit(w, j)
        decreases BITS - offset
      {
        offset := offset + 1;
      }
    }

    method SetAt(index: nat)
      requires Valid() && index < v.Length * BITS
      modifies v
      ensures forall i :: 0 <= i < v.Length * BITS ==> (IsMarked(i) <==> i == index || old(IsMarked(i)))
    {
      var ix := index / BITS;
      ghost var w := v[ix];
      v[ix] := v[ix] | Mask(index % BITS);
      forall i | 0 <= i < v.Length * BITS ensures IsMarked(i) <==> i == index || old(IsMarked(i)) {
        if i / BITS == ix { SetBit(w, index % BITS, i % BITS); }
      }
    }

    method Mark(index: nat)
      requires Valid() && index < nbits && index !in Marked()
      modifies v
      ensures Valid() && Marked() == old(Marked()) + {index}
    {
      SetAt(index);
    }

    method Unmark(index: nat)
      requires Valid() && index in Marked()
      modifies v
      ensures Valid() && Marked() == old(Marked()) - {index}
    {
      var ix := index / BITS;
      ghost var w := v[ix];
      v[ix] := v[ix] & !Mask(index % BITS);
      forall i | 0 <= i < v.Length * BITS ensures IsMarked(i) <==> i != index && old(IsMarked(i)) {
        if i / BITS == ix { ClearBit(w, index % BITS, i % BITS); }
      }
    }

    method IsSet(index: nat) returns (r: bool)
      requires Valid() && index < nbits
      ensures r == (index in Marked())
    {
      r := v[index / BITS] & Mask(index % BITS) != 0;
    }
  }
}
