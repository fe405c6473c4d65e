/** Shifting a digit string in place: shl and the un-normalising loop at the
    end of __qdivrem. */
module Shifts {
  import opened Arithmetic
  import opened Digits

  lemma {:induction false} Pow2Add(a: nat, b: nat)
    ensures Pow2(a + b) == Pow2(a) * Pow2(b)
  {
    if a != 0 {
      Pow2Add(a - 1, b);
      assert 2 * (Pow2(a - 1) * Pow2(b)) == (2 * Pow2(a - 1)) * Pow2(b);
    }
  }

  lemma Pow2Values()
    ensures Pow2(16) == B && Pow2(15) == B / 2
  {
    assert Pow2(4) == 16;
    Pow2Add(4, 4);
    assert Pow2(8) == 256;
    Pow2Add(8, 8);
    assert Pow2(16) == 2 * Pow2(15);
  }

  lemma {:induction false} Pow2Mono(a: nat, b: nat)
    requires a <= b
    ensures Pow2(a) <= Pow2(b)
  {
    if a < b { Pow2Mono(a, b - 1); }
  }

  /** Left and right shift amounts of one digit add up to HALF_BITS. */
  lemma ShiftPair(d: nat)
    requires d <= 16
    ensures Pow2(d) * Pow2(16 - d) == Pow2(16 - d) * Pow2(d) == B
  {
    Pow2Add(d, 16 - d);
    Pow2Values();
  }

  /** x * s overflows its digit by exactly x / t, when s * t is the base. */
  lemma ShiftDigit(x: int, s: int, t: int)
    requires s > 0 && t > 0 && s * t == B && x >= 0
    ensures x * s == (x / t) * B + (x * s) % B
    ensures 0 <= (x * s) % B == (x % t) * s
  {
    var q, r := x / t, x % t;
    assert x == t * q + r;
    assert x * s == q * B + r * s by {
      assert (t * q + r) * s == (t * q) * s + r * s;
      assert (t * q) * s == q * (s * t);
    }
    MulMono(r, t - 1, s);
    MulMono(0, r, s);
    assert (t - 1) * s == s * t - s;
    QuotientIs(x * s, B, q) by {
      MulMono(0, q, B);
    }
  }

  /** Two neighbouring digits shifted and joined: LHALF(x << log s) | (y >> log t).
      The two parts have no bit in common, so or-ing them is adding them. */
  function Join(x: int, y: int, s: int, t: int): (z: int)
    requires 0 <= x < B && 0 <= y < B && s > 0 && t > 0 && s * t == B
    ensures 0 <= z < B
  {
    assert 0 <= (x % t) * s <= B - s && (x * s) % B == (x % t) * s by {
      ShiftDigit(x, s, t);
      MulMono(x % t, t - 1, s);
      assert (t - 1) * s == s * t - s;
    }
    QuotientBelow(s, y, t);
    LHalf(x * s) + y / t
  }

  // -------------------------------------------------------------------- left

  ghost predicate ShiftedLeft(w: seq<int>, w': seq<int>, s: int, t: int) {
    && |w| == |w'| && s > 0 && t > 0 && s * t == t * s == B && IsDigits(w)
    && (forall i :: 0 <= i < |w| - 1 ==> w'[i] == Join(w[i], w[i + 1], s, t))
    && (w != [] ==> w'[|w| - 1] == Join(w[|w| - 1], 0, s, t))
  }

  lemma {:induction false} ShiftLeftVal(w: seq<int>, w': seq<int>, s: int, t: int)
    requires ShiftedLeft(w, w', s, t) && w != []
    ensures Val(w') == Val(w) * s - (w[0] / t) * Pow(|w|)
  {
    var p := Pow(|w| - 1);
    var x, rest := w[0], w[1..];
    ShiftDigit(x, s, t);
    if |w| == 1 {
      assert Val(rest) == 0 && Val(w'[1..]) == 0;
      assert w[0] * Pow(0) == w[0];
    } else {
      ShiftLeftVal(rest, w'[1..], s, t);
      ShiftLeftStep(x, w[1] / t, p, Val(rest), s, x / t, (x * s) % B);
    }
  }

  lemma ShiftLeftStep(x: int, c: int, p: int, rest: int, s: int, q: int, r: int)
    requires x * s == q * B + r
    ensures (r + c) * p + (rest * s - c * p) == (x * p + rest) * s - q * (B * p)
  {
    assert (r + c) * p == r * p + c * p;
    assert (x * p + rest) * s == x * s * p + rest * s by {
      assert (x * p) * s == x * s * p;
    }
    assert (q * B + r) * p == q * (B * p) + r * p;
  }

  /** p[k] joined with the digit after it. */
  method JoinWithNext(p: array<int>, k: nat, s: int, t: int)
    requires k + 1 < p.Length && IsDigits(p[..]) && s > 0 && t > 0 && s * t == B
    modifies p
    ensures IsDigits(p[..]) && 0 <= old(p[k]) < B && 0 <= old(p[k + 1]) < B
    ensures p[k] == Join(old(p[k]), old(p[k + 1]), s, t)
    ensures forall j :: 0 <= j < p.Length && j != k ==> p[j] == old(p[j])
  {
    assert p[..][k] == p[k] && p[..][k + 1] == p[k + 1];
    p[k] := Join(p[k], p[k + 1], s, t);
  }

  /** shl: p[at] .. p[at+len] shifted left by sh bits, bits that fall out on the
      left dropped. */
  method ShiftLeft(p: array<int>, at: nat, len: nat, sh: nat)
    requires at + len < p.Length && IsDigits(p[..]) && sh <= 16
    modifies p
    ensures IsDigits(p[..])
    ensures forall k :: 0 <= k < p.Length && !(at <= k <= at + len) ==> p[k] == old(p[k])
    ensures ShiftedLeft(old(p[at..at + len + 1]), p[at..at + len + 1], Pow2(sh), Pow2(16 - sh))
  {
    var s, t := Pow2(sh), Pow2(16 - sh);
    ghost var was := p[..];
    ShiftPair(sh);
    var i := 0;
    while i < len
      invariant 0 <= i <= len && IsDigits(p[..])
      invariant forall k :: 0 <= k < p.Length && !(at <= k < at + i) ==> p[k] == was[k]
      invariant forall k :: at <= k < at + i ==> p[k] == Join(was[k], was[k + 1], s, t)
    {
      JoinWithNext(p, at + i, s, t);
      i := i + 1;
    }
    assert p[..][at + len] == p[at + len];
    p[at + len] := Join(p[at + len], 0, s, t);
  }

  // ------------------------------------------------------------------- right

  ghost predicate ShiftedRight(w: seq<int>, w': seq<int>, s: int, t: int) {
    && |w| == |w'| && s > 0 && t > 0 && s * t == t * s == B && IsDigits(w)
    && (forall i :: 0 < i < |w| ==> w'[i] == Join(w[i - 1], w[i], t, s))
  }

  lemma ShiftedRightTail(w: seq<int>, w': seq<int>, s: int, t: int)
    requires ShiftedRight(w, w', s, t) && |w| > 1
    ensures ShiftedRight(w[1..], w'[1..], s, t)
  {
    forall i | 0 < i < |w[1..]| ensures w'[1..][i] == Join(w[1..][i - 1], w[1..][i], t, s) {
      assert w'[i + 1] == Join(w[i], w[i + 1], t, s);
    }
  }

  /** The first digit that comes in, from the two it is made of. */
  lemma ShiftedRightDigit(w: seq<int>, w': seq<int>, s: int, t: int)
    requires ShiftedRight(w, w', s, t) && |w| > 1
    ensures w'[1] == w[1] / s + (w[0] % s) * t
    ensures w[1] == s * (w[1] / s) + w[1] % s
  {
    ShiftDigit(w[0], t, s);
    assert w'[1] == Join(w[0], w[1], t, s);
  }

  /** The digits after the first, shifted right, with the first one's low bits
      coming in on the left: nothing is lost but the low bits of the last. */
  lemma {:induction false} ShiftRightVal(w: seq<int>, w': seq<int>, s: int, t: int)
    requires ShiftedRight(w, w', s, t) && w != []
    ensures (w[0] % s) * Pow(|w| - 1) + Val(w[1..]) == Val(w'[1..]) * s + w[|w| - 1] % s
  {
    if |w| > 1 {
      var p := Pow(|w| - 2);
      ShiftedRightTail(w, w', s, t);
      ShiftRightVal(w[1..], w'[1..], s, t);
      assert w[1..][1..] == w[2..] && w'[1..][1..] == w'[2..];
      ShiftedRightDigit(w, w', s, t);
      ShiftRightStep(w[0] % s, w[1] / s, w[1] % s, p, Val(w[2..]), Val(w'[2..]), s, t, w[|w| - 1] % s);
    }
  }

  lemma ShiftRightStep(a: int, q: int, r: int, p: int, rest: int, rest': int, s: int, t: int, low: int)
    requires s * t == B && r * p + rest == rest' * s + low
    ensures a * (B * p) + ((s * q + r) * p + rest) == ((q + a * t) * p + rest') * s + low
  {
    assert (s * q + r) * p == s * q * p + r * p;
    assert ((q + a * t) * p + rest') * s == (q + a * t) * p * s + rest' * s;
    assert (q + a * t) * p * s == q * p * s + a * t * p * s by {
      assert (q + a * t) * p == q * p + a * t * p;
    }
    assert a * t * p * s == a * ((s * t) * p);
    assert q * p * s == s * q * p;
  }

  /** u[k] joined with the digit before it. */
  method JoinInto(u: array<int>, k: nat, t: int, s: int)
    requires 0 < k < u.Length && IsDigits(u[..]) && s > 0 && t > 0 && t * s == B
    modifies u
    ensures IsDigits(u[..]) && 0 <= old(u[k - 1]) < B && 0 <= old(u[k]) < B
    ensures u[k] == Join(old(u[k - 1]), old(u[k]), t, s)
    ensures forall j :: 0 <= j < u.Length && j != k ==> u[j] == old(u[j])
  {
    assert u[..][k - 1] == u[k - 1] && u[..][k] == u[k];
    u[k] := Join(u[k - 1], u[k], t, s);
  }

  /** The remainder loop of __qdivrem: u[at+1] .. u[at+len] get their digits of
      u >> sh, from right to left, and u[at] is cleared. */
  method ShiftRight(u: array<int>, at: nat, len: nat, sh: nat)
    requires at + len < u.Length && IsDigits(u[..]) && sh <= 16
    modifies u
    ensures IsDigits(u[..]) && u[at] == 0
    ensures forall k :: 0 <= k < u.Length && !(at <= k <= at + len) ==> u[k] == old(u[k])
    ensures ShiftedRight(old(u[at..at + len + 1]), u[at..at + len + 1], Pow2(sh), Pow2(16 - sh))
  {
    var s, t := Pow2(sh), Pow2(16 - sh);
    ghost var was := u[..];
    ShiftPair(sh);
    var i := len;
    while i > 0
      invariant 0 <= i <= len && IsDigits(u[..])
      invariant forall k :: 0 <= k < u.Length && !(at + i < k <= at + len) ==> u[k] == was[k]
      invariant forall k :: at + i < k <= at + len ==> u[k] == Join(was[k - 1], was[k], t, s)
    {
      JoinInto(u, at + i, t, s);
      i := i - 1;
    }
    u[at] := 0;
  }

  lemma DoubleShift(v1: int, d: nat)
    requires v1 > 0 && v1 * Pow2(d) < B / 2
    ensures v1 * Pow2(d + 1) == 2 * (v1 * Pow2(d)) && d + 1 < 16
  {
    assert v1 * (2 * Pow2(d)) == 2 * (v1 * Pow2(d));
    MulMono(1, v1, Pow2(d));
    SmallPower(d);
  }

  lemma SmallPower(d: nat)
    requires Pow2(d) < B / 2
    ensures d + 1 < 16
  {
    Pow2Values();
    if d >= 15 { Pow2Mono(15, d); assert false; }
  }

  /** D1: the shift that brings the leading divisor digit to at least B/2. */
  method NormalisingShift(v1: int) returns (d: nat)
    requires 0 < v1 < B
    ensures d < 16 && B / 2 <= v1 * Pow2(d) < B
  {
    d := 0;
    var t := v1;
    while t < B / 2
      invariant t == v1 * Pow2(d) < B && d < 16 && t > 0
      decreases B - t
    {
      DoubleShift(v1, d);
      t := 2 * t;
      d := d + 1;
    }
  }
}
