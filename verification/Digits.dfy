/** Base-2^16 digit strings, most significant digit first, and the 32-bit
    machine word they are computed in (longlong.h). */
module Digits {
  import opened Arithmetic

  const B: int := 0x1_0000                     // digit base, 1 << HALF_BITS
  const W: int := 0x1_0000_0000                // 2^32, one machine word
  const W2: int := 0x1_0000_0000_0000_0000     // 2^64, one long long

  /** An unsigned int expression: the mathematical value reduced modulo 2^32. */
  function Wrap32(x: int): (r: int)
    ensures 0 <= r < W
  {
    x % W
  }

  function HHalf(x: int): int { x / B }
  function LHalf(x: int): int { x % B }

  /** (a << HALF_BITS) | b, for a digit-sized b. */
  function Combine(a: int, b: int): int { Wrap32(a * B) + b }

  ghost predicate IsDigits(s: seq<int>) {
    forall i :: 0 <= i < |s| ==> 0 <= s[i] < B
  }

  ghost function Pow(k: nat): (p: int)
    ensures p > 0
  {
    if k == 0 then 1 else B * Pow(k - 1)
  }

  /** The number a digit string stands for. */
  ghost function Val(s: seq<int>): int {
    if s == [] then 0 else s[0] * Pow(|s| - 1) + Val(s[1..])
  }

  lemma {:induction false} ValBound(s: seq<int>)
    requires IsDigits(s)
    ensures 0 <= Val(s) < Pow(|s|)
  {
    if s != [] {
      ValBound(s[1..]);
      var p := Pow(|s| - 1);
      MulMono(0, s[0], p);
      MulMono(s[0], B - 1, p);
    }
  }

  lemma {:induction false} PowAdd(a: nat, b: nat)
    ensures Pow(a + b) == Pow(a) * Pow(b)
  {
    if a != 0 {
      PowAdd(a - 1, b);
      assert B * (Pow(a - 1) * Pow(b)) == (B * Pow(a - 1)) * Pow(b);
    }
  }

  /** Concatenation of digit strings. */
  lemma {:induction false} ValConcat(s: seq<int>, t: seq<int>)
    ensures Val(s + t) == Val(s) * Pow(|t|) + Val(t)
  {
    if s == [] {
      assert s + t == t;
    } else {
      ValConcat(s[1..], t);
      assert (s + t)[1..] == s[1..] + t;
      PowAdd(|s| - 1, |t|);
      Distribute(s[0], Pow(|s| - 1), Val(s[1..]), Pow(|t|));
    }
  }

  /** A slice read as its first digit and the rest. */
  lemma ValHead(s: seq<int>, lo: nat, hi: nat)
    requires lo < hi <= |s|
    ensures Val(s[lo..hi]) == s[lo] * Pow(hi - lo - 1) + Val(s[lo + 1..hi])
  {
    assert s[lo..hi][1..] == s[lo + 1..hi];
  }

  /** Leading zeros do not count. */
  lemma {:induction false} ValSkipZeros(s: seq<int>, lo: nat, mid: nat)
    requires lo <= mid <= |s|
    requires forall i :: lo <= i < mid ==> s[i] == 0
    ensures Val(s[lo..]) == Val(s[mid..])
    decreases mid - lo
  {
    if lo < mid {
      assert s[lo..][1..] == s[lo + 1..];
      ValSkipZeros(s, lo + 1, mid);
    }
  }

  /** A number below B^(hi-lo-1) has a zero first digit. */
  lemma SmallHasZeroHead(s: seq<int>, lo: nat, hi: nat)
    requires lo < hi <= |s| && IsDigits(s)
    requires Val(s[lo..hi]) < Pow(hi - lo - 1)
    ensures s[lo] == 0
  {
    ValHead(s, lo, hi);
    ValBound(s[lo + 1..hi]);
    if s[lo] >= 1 {
      MulMono(1, s[lo], Pow(hi - lo - 1));
      assert false;
    }
  }
}
