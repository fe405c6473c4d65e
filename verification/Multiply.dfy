/** __lmulq and __muldi3: Knuth's three-product multiplication (vol. 2, section
    4.3.3), first of two words into a long long, then of two long longs modulo
    2^64. */
module Multiply {
  import opened Arithmetic
  import opened Digits

  function LHup(x: int): int { Wrap32(x * B) }

  /** The signed long long with a given 64-bit pattern, and back. */
  function ToSigned(x: int): (r: int)
    requires 0 <= x < W2
    ensures -W2 / 2 <= r < W2 / 2 && r % W2 == x
  {
    if x < W2 / 2 then x else x - W2
  }

  function Pattern(a: int): (r: int)
    ensures 0 <= r < W2
  {
    a % W2
  }

  // ------------------------------------------------------------------ __lmulq

  /** Adding x << HALF_BITS to a two-word number, the carry seen as a wrapped low word. */
  lemma CarryChain(hi: int, lo: int, x: int)
    requires 0 <= hi < W && 0 <= lo < W && 0 <= x < W
    ensures var lo' := Wrap32(lo + LHup(x));
            var hi' := Wrap32(hi + HHalf(x) + if lo' < lo then 1 else 0);
            hi' * W + lo' == (hi * W + lo + x * B) % W2
  {
    HalfUp(x);
    var y := LHup(x);
    var lo' := Wrap32(lo + y);
    var c := if lo' < lo then 1 else 0;
    assert lo' == lo + y - c * W;
    TwoWords(hi + HHalf(x) + c, lo');
  }

  /** Subtracting x << HALF_BITS, the borrow seen the same way. */
  lemma BorrowChain(hi: int, lo: int, x: int)
    requires 0 <= hi < W && 0 <= lo < W && 0 <= x < W
    ensures var lo' := Wrap32(lo - LHup(x));
            var hi' := Wrap32(hi - Wrap32(HHalf(x) + if lo' > lo then 1 else 0));
            hi' * W + lo' == (hi * W + lo - x * B) % W2
  {
    HalfUp(x);
    var y := LHup(x);
    var lo' := Wrap32(lo - y);
    var c := if lo' > lo then 1 else 0;
    assert lo' == lo - y + c * W;
    TwoWords(hi - HHalf(x) - c, lo');
  }

  lemma HalfUp(x: int)
    requires 0 <= x < W
    ensures x * B == HHalf(x) * W + LHup(x) && 0 <= LHup(x) < W && 0 <= HHalf(x) < B
  {
    var h, l := x / B, x % B;
    assert x == h * B + l;
    LowWord(h, l * B);
  }

  lemma LowWord(h: int, y: int)
    requires 0 <= y < W
    ensures Wrap32(h * W + y) == y
  {
  }

  /** Reducing the high word modulo 2^32 reduces the number modulo 2^64. */
  lemma TwoWords(hi: int, lo: int)
    requires 0 <= lo < W
    ensures Wrap32(hi) * W + lo == (hi * W + lo) % W2
  {
    assert hi == (hi / W) * W + Wrap32(hi);
    ModIs(hi * W + lo, hi / W, Wrap32(hi) * W + lo);
  }

  lemma ModIs(x: int, k: int, r: int)
    requires x == k * W2 + r && 0 <= r < W2
    ensures x % W2 == r
  {
  }

  lemma ModStep(x: int, y: int, d: int)
    requires y == x % W2
    ensures (y + d) % W2 == (x + d) % W2
  {
  }

  lemma Small(x: int, y: int)
    requires 0 <= x < B && 0 <= y < B
    ensures 0 <= x * y <= (B - 1) * (B - 1)
  {
    MulMono(0, x, y);
    MulMono(x, B - 1, y);
    MulMono(y, B - 1, B - 1);
  }

  /** The difference of two digits as size and sign, the sign folded into neg. */
  method Difference(x: int, y: int, neg: bool, top: int) returns (diff: int, neg': bool)
    requires 0 <= x < top && 0 <= y < top
    ensures 0 <= diff < top
    ensures (if neg' then -diff else diff) == if neg then y - x else x - y
  {
    if x >= y {
      diff, neg' := x - y, neg;
    } else {
      diff, neg' := y - x, !neg;
    }
  }

  lemma Signs(x: int, y: int, a: int, b: int, nega: bool, neg: bool)
    requires (if nega then -a else a) == x
    requires (if neg then -b else b) == if nega then -y else y
    ensures (if neg then -(a * b) else a * b) == x * y
  {
  }

  /** The identity behind both routines, for any splitting factor n. */
  lemma ThreeProducts(n: int, u1: int, u0: int, v1: int, v0: int)
    ensures (u1 * n + u0) * (v1 * n + v0)
         == u1 * v1 * (n * n) + (u1 * v1 + (u1 - u0) * (v0 - v1) + u0 * v0) * n + u0 * v0
  {
    assert (u1 - u0) * (v0 - v1) == u1 * v0 - u1 * v1 - u0 * v0 + u0 * v1;
    Distribute2(u1, u0, v1, v0, n);
  }

  lemma Distribute2(u1: int, u0: int, v1: int, v0: int, n: int)
    ensures (u1 * n + u0) * (v1 * n + v0) == u1 * v1 * (n * n) + (u1 * v0 + u0 * v1) * n + u0 * v0
  {
    assert (u1 * n + u0) * (v1 * n + v0) == u1 * n * (v1 * n) + u1 * n * v0 + u0 * (v1 * n) + u0 * v0;
    assert u1 * n * (v1 * n) == u1 * v1 * (n * n);
    assert u1 * n * v0 == u1 * v0 * n;
    assert u0 * (v1 * n) == u0 * v1 * n;
  }

  /** The final carry chain of __lmulq, from the three products on. */
  method AssembleProduct(high: int, mid: int, neg: bool, low: int) returns (prodh: int, prodl: int)
    requires 0 <= high <= (B - 1) * (B - 1) && 0 <= mid < W && 0 <= low < W
    ensures 0 <= prodh < W && 0 <= prodl < W
    ensures prodh * W + prodl == (high * W + (high + (if neg then -mid else mid) + low) * B + low) % W2
  {
    ghost var sum := high * W + high * B;
    HalfUp(high);
    prodh := Wrap32(high + HHalf(high));
    prodl := LHup(high);
    var was := prodl;
    assert prodh * W + prodl == sum;
    if neg {
      BorrowChain(prodh, prodl, mid);
      prodl := Wrap32(prodl - LHup(mid));
      prodh := Wrap32(prodh - Wrap32(HHalf(mid) + if prodl > was then 1 else 0));
      sum := sum - mid * B;
    } else {
      prodh, prodl := AddShifted(prodh, prodl, mid, sum);
      sum := sum + mid * B;
    }
    prodh, prodl := AddLow(prodh, prodl, low, sum);
  }

  /** prod += x << N. */
  method AddShifted(prodh0: int, prodl0: int, x: int, ghost sum: int) returns (prodh: int, prodl: int)
    requires 0 <= prodh0 < W && 0 <= prodl0 < W && 0 <= x < W
    requires prodh0 * W + prodl0 == sum % W2
    ensures 0 <= prodh < W && 0 <= prodl < W
    ensures prodh * W + prodl == (sum + x * B) % W2
  {
    CarryChain(prodh0, prodl0, x);
    ModStep(sum, prodh0 * W + prodl0, x * B);
    prodl := Wrap32(prodl0 + LHup(x));
    prodh := Wrap32(prodh0 + HHalf(x) + if prodl < prodl0 then 1 else 0);
  }

  /** prod += low << N; prod += low. */
  method AddLow(prodh0: int, prodl0: int, low: int, ghost sum: int) returns (prodh: int, prodl: int)
    requires 0 <= prodh0 < W && 0 <= prodl0 < W && 0 <= low < W
    requires prodh0 * W + prodl0 == sum % W2
    ensures 0 <= prodh < W && 0 <= prodl < W
    ensures prodh * W + prodl == (sum + low * B + low) % W2
  {
    prodh, prodl := AddShifted(prodh0, prodl0, low, sum);
    LastCarry(prodh, prodl, low, sum + low * B);
    prodl := Wrap32(prodl + low);
    if prodl < low {
      prodh := Wrap32(prodh + 1);
    }
  }

  lemma LastCarry(h: int, l: int, low: int, sum: int)
    requires 0 <= h < W && 0 <= l < W && 0 <= low < W && h * W + l == sum % W2
    ensures var l' := Wrap32(l + low);
            var h' := if l' < low then Wrap32(h + 1) else h;
            h' * W + l' == (sum + low) % W2
  {
    var l' := Wrap32(l + low);
    var c := if l' < low then 1 else 0;
    assert l' == l + low - c * W;
    TwoWords(h + c, l');
    ModStep(sum, h * W + l, low);
  }

  /** __lmulq: the exact product of two words. */
  method WordProduct(u: int, v: int) returns (prod: int)
    requires 0 <= u < W && 0 <= v < W
    ensures prod == u * v && 0 <= prod < W2
  {
    var u1, u0, v1, v0 := HHalf(u), LHalf(u), HHalf(v), LHalf(v);
    Small(u0, v0);
    var low := u0 * v0;
    if u1 == 0 && v1 == 0 {
      return low;
    }
    var udiff, nega := Difference(u1, u0, false, B);
    var vdiff, neg := Difference(v0, v1, nega, B);
    Small(udiff, vdiff);
    var mid := udiff * vdiff;
    Small(u1, v1);
    var high := u1 * v1;
    Signs(u1 - u0, v0 - v1, udiff, vdiff, nega, neg);
    ThreeProducts(B, u1, u0, v1, v0);
    assert u == u1 * B + u0 && v == v1 * B + v0;
    var prodh, prodl := AssembleProduct(high, mid, neg, low);
    WordProductFits(u, v);
    prod := prodh * W + prodl;
  }

  lemma WordProductFits(u: int, v: int)
    requires 0 <= u < W && 0 <= v < W
    ensures 0 <= u * v < W2 && (u * v) % W2 == u * v
  {
    MulMono(0, u, v);
    MulMono(u, W - 1, v);
    MulMono(v, W - 1, W - 1);
  }

  // ----------------------------------------------------------------- __muldi3

  /** The long-long product of two patterns, modulo 2^64: only the low product
      is needed in full, the other two modulo 2^32. */
  method PatternProduct(u1: int, u0: int, v1: int, v0: int) returns (prod: int)
    requires 0 <= u1 < W && 0 <= u0 < W && 0 <= v1 < W && 0 <= v0 < W
    ensures prod == ((u1 * W + u0) * (v1 * W + v0)) % W2
  {
    var low := WordProduct(u0, v0);
    if u1 == 0 && v1 == 0 {
      WordProductFits(u0, v0);
      return low;
    }
    var udiff, nega := Difference(u1, u0, false, W);
    var vdiff, negmid := Difference(v0, v1, nega, W);
    var mid := Wrap32(udiff * vdiff);
    var high := Wrap32(u1 * v1);
    var prodh := Wrap32(high + Wrap32(if negmid then -mid else mid) + (low % W + low / W));
    prod := prodh * W + low % W;
    Signs(u1 - u0, v0 - v1, udiff, vdiff, nega, negmid);
    ThreeProducts(W, u1, u0, v1, v0);
    PatternProductIs((u1 * W + u0) * (v1 * W + v0), u1 * v1, udiff * vdiff, negmid, low);
  }

  lemma PatternProductIs(uv: int, h: int, m: int, neg: bool, low: int)
    requires 0 <= low < W2
    requires uv == h * (W * W) + (h + (if neg then -m else m) + low) * W + low
    ensures Wrap32(Wrap32(h) + Wrap32(if neg then -Wrap32(m) else Wrap32(m)) + (low % W + low / W)) * W + low % W ==
            uv % W2
  {
    var middle := if neg then -m else m;
    MiddleWord(h, m, neg, low % W + low / W);
    TwoWords(h + middle + low % W + low / W, low % W);
    HighWordsVanish(uv, h, middle, low);
  }

  lemma Wrap32Add(a: int, b: int)
    ensures Wrap32(Wrap32(a) + b) == Wrap32(a + b)
  {
  }

  lemma Wrap32Neg(a: int)
    ensures Wrap32(-Wrap32(a)) == Wrap32(-a)
  {
  }

  lemma MiddleWord(h: int, m: int, neg: bool, x: int)
    ensures Wrap32(Wrap32(h) + Wrap32(if neg then -Wrap32(m) else Wrap32(m)) + x)
         == Wrap32(h + (if neg then -m else m) + x)
  {
    var t := if neg then -m else m;
    Wrap32Neg(m);
    Wrap32Add(h, Wrap32(t) + x);
    Wrap32Add(t, h + x);
  }

  lemma HighWordsVanish(uv: int, h: int, m: int, low: int)
    requires 0 <= low < W2 && uv == h * (W * W) + (h + m + low) * W + low
    ensures uv % W2 == ((h + m + low % W + low / W) * W + low % W) % W2
  {
    var x := (h + m + low % W + low / W) * W + low % W;
    assert low == (low / W) * W + low % W;
    assert uv == x + (h + low / W) * W2;
  }

  /** Multiplying sizes and attaching the sign, on patterns. */
  lemma SignedFromSizes(a: int, b: int, u: int, v: int, neg: bool)
    requires u == if a < 0 then -a else a
    requires v == if b < 0 then -b else b
    requires neg == ((a < 0) != (b < 0))
    ensures Pattern(a * b) == if neg then Pattern(-((u * v) % W2)) else (u * v) % W2
  {
    assert u * v == if neg then -(a * b) else a * b;
    NegatePattern(a * b);
  }

  lemma NegatePattern(x: int)
    ensures Pattern(-Pattern(-x)) == Pattern(x)
  {
  }

  method SizeProduct(u: int, v: int) returns (prod: int)
    requires 0 <= u < W2 && 0 <= v < W2
    ensures prod == (u * v) % W2
  {
    assert u == (u / W) * W + u % W && v == (v / W) * W + v % W;
    prod := PatternProduct(u / W, u % W, v / W, v % W);
  }

  /** A signed long long as its size and sign; negating the least one wraps to itself. */
  method SizeAndSign(a: int, neg: bool) returns (u: int, neg': bool)
    requires -W2 / 2 <= a < W2 / 2
    ensures u == (if a < 0 then -a else a) && 0 <= u < W2 && neg' == (neg != (a < 0))
  {
    if a >= 0 {
      u, neg' := Pattern(a), neg;
    } else {
      u, neg' := Pattern(-a), !neg;
    }
  }

  /** __muldi3. */
  method SignedProduct(a: int, b: int) returns (r: int)
    requires -W2 / 2 <= a < W2 / 2 && -W2 / 2 <= b < W2 / 2
    ensures r == ToSigned(Pattern(a * b))
  {
    var u, nega := SizeAndSign(a, false);
    var v, negall := SizeAndSign(b, nega);
    var prod := SizeProduct(u, v);
    SignedFromSizes(a, b, u, v, negall);
    r := ToSigned(if negall then Pattern(-prod) else prod);
  }
}
