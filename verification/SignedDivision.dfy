/** __divdi3 and __moddi3: truncating division and remainder of signed long
    longs (section 6.5.5 of ISO C99), through __qdivrem on the sizes. */
module SignedDivision {
  import opened Arithmetic
  import opened Digits
  import opened Multiply
  import QDivRem

  datatype Signed = Trap | Value(v: int)

  /** The quotient rounded toward zero, on unbounded integers. */
  ghost function TruncDiv(a: int, b: int): int
    requires b != 0
  {
    var q := Abs(a) / Abs(b);
    if (a < 0) != (b < 0) then -q else q
  }

  ghost function Abs(x: int): int { if x < 0 then -x else x }

  /** What makes it the C quotient: the remainder it leaves is smaller than the
      divisor and never has the sign opposite to the dividend's. */
  lemma TruncDivIsTruncating(a: int, b: int)
    requires b != 0
    ensures var r := a - TruncDiv(a, b) * b;
            Abs(r) < Abs(b) && (a >= 0 ==> r >= 0) && (a <= 0 ==> r <= 0)
  {
    var ua, ub := Abs(a), Abs(b);
    var q := ua / ub;
    assert ua == ub * q + ua % ub;
    assert TruncDiv(a, b) * b == if a < 0 then -(ub * q) else ub * q;
  }

  /** The sizes' quotient is the truncating quotient's size. */
  lemma SizeQuotient(ua: int, ub: int, q: int)
    requires ub > 0 && 0 <= ua - q * ub < ub && q >= 0
    ensures ua / ub == q
  {
    QuotientIs(ua, ub, q);
  }

  /** __divdi3: the truncating quotient, as a 64-bit pattern. */
  method SignedDivide(a: int, b: int) returns (res: Signed)
    requires -W2 / 2 <= a < W2 / 2 && -W2 / 2 <= b < W2 / 2
    ensures b == 0 <==> res.Trap?
    ensures res.Value? ==> res.v == ToSigned(Pattern(TruncDiv(a, b)))
  {
    var ua, nega := SizeAndSign(a, false);
    var ub, neg := SizeAndSign(b, nega);
    var d := QDivRem.UnsignedDivide(ua, ub, false);
    if d.Trap? {
      return Trap;
    }
    SizeQuotient(ua, ub, d.quotient);
    res := Value(ToSigned(if neg then Pattern(-d.quotient) else Pattern(d.quotient)));
  }

  /** __moddi3: what the truncating quotient leaves, with the dividend's sign. */
  method SignedRemainder(a: int, b: int) returns (res: Signed)
    requires -W2 / 2 <= a < W2 / 2 && -W2 / 2 <= b < W2 / 2
    ensures b == 0 <==> res.Trap?
    ensures res.Value? ==> res.v == a - TruncDiv(a, b) * b
  {
    var ua, neg := SizeAndSign(a, false);
    var ub, _ := SizeAndSign(b, false);
    var d := QDivRem.UnsignedDivide(ua, ub, true);
    if d.Trap? {
      return Trap;
    }
    SizeQuotient(ua, ub, d.quotient);
    RemainderSign(a, b, d.quotient, d.remainder);
    PatternRoundTrip(if neg then -d.remainder else d.remainder);
    res := Value(ToSigned(if neg then Pattern(-d.remainder) else Pattern(d.remainder)));
  }

  lemma PatternRoundTrip(x: int)
    requires -W2 / 2 <= x < W2 / 2
    ensures ToSigned(Pattern(x)) == x
  {
  }

  lemma RemainderSign(a: int, b: int, q: int, r: int)
    requires b != 0 && q == Abs(a) / Abs(b) && r == Abs(a) - q * Abs(b)
    ensures a - TruncDiv(a, b) * b == if a < 0 then -r else r
  {
    assert TruncDiv(a, b) * b == if a < 0 then -(q * Abs(b)) else q * Abs(b);
  }

  /** (a/b)*b + a%b == a, modulo 2^64, for all operands including the least
      number divided by -1. */
  lemma DivisionIdentity(a: int, b: int, q: int, r: int)
    requires -W2 / 2 <= a < W2 / 2 && -W2 / 2 <= b < W2 / 2 && b != 0
    requires q == ToSigned(Pattern(TruncDiv(a, b))) && r == a - TruncDiv(a, b) * b
    ensures Pattern(q * b + r) == Pattern(a)
  {
    var t := TruncDiv(a, b);
    var k := (t - q) / W2;
    assert (t - q) % W2 == 0;
    assert t == q + k * W2;
    assert t * b == q * b + (k * b) * W2;
    assert q * b + r == a - (k * b) * W2;
    MultipleVanishes(a, k * b);
  }

  lemma MultipleVanishes(a: int, k: int)
    ensures Pattern(a - k * W2) == Pattern(a)
  {
  }

  /** The quotient itself wraps for exactly one pair of operands. */
  lemma QuotientWrapsOnlyAtLeast(a: int, b: int)
    requires -W2 / 2 <= a < W2 / 2 && -W2 / 2 <= b < W2 / 2 && b != 0
    ensures ToSigned(Pattern(TruncDiv(a, b))) != TruncDiv(a, b) <==> a == -W2 / 2 && b == -1
  {
    var q := Abs(a) / Abs(b);
    HalvedByDivisor(Abs(a), Abs(b));
    if TruncDiv(a, b) == W2 / 2 {
      assert ToSigned(Pattern(W2 / 2)) == -W2 / 2;
    } else {
      PatternRoundTrip(TruncDiv(a, b));
    }
  }

  lemma HalvedByDivisor(ua: int, ub: int)
    requires 0 <= ua && 1 <= ub
    ensures ub == 1 ==> ua / ub == ua
    ensures ub >= 2 ==> 0 <= 2 * (ua / ub) <= ua
  {
    QuotientTimes(ua, ub);
    if ub >= 2 {
      MulMono(2, ub, ua / ub);
      assert ub * (ua / ub) == (ua / ub) * ub;
    }
  }
}
