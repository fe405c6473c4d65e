/** __qdivrem: 64-bit unsigned division, by one-digit short division or by
    Algorithm D on base-2^16 digit arrays. */
module QDivRem {
  import opened Arithmetic
  import opened Digits
  import opened AlgorithmD
  import opened Shifts

  // ------------------------------------------------------------ one quotient digit

  /** The estimate is off by at most one, in the terms of the digit arrays. */
  lemma EstimateForDigits(us: seq<int>, vs: seq<int>, qhat: int)
    requires |vs| >= 2 && |us| == |vs| + 1 && IsDigits(us) && IsDigits(vs) && vs[0] > 0
    requires Val(us) < B * Val(vs)
    requires var u3, v12 := (us[0] * B + us[1]) * B + us[2], vs[0] * B + vs[1];
             qhat == if u3 / v12 < B - 1 then u3 / v12 else B - 1
    ensures Val(vs) > 0
    ensures Val(us) / Val(vs) <= qhat <= Val(us) / Val(vs) + 1
  {
    var n := |vs|;
    var p := Pow(n - 2);
    var u3, v12 := (us[0] * B + us[1]) * B + us[2], vs[0] * B + vs[1];
    LeadingTwo(vs);
    LeadingThree(us);
    TailBound(us, 3);
    TailBound(vs, 2);
    QhatIsQuotientOrOneMore(B, p, u3, Val(us[3..]), v12, Val(vs[2..]), qhat);
  }

  lemma LeadingTwo(s: seq<int>)
    requires |s| >= 2
    ensures Val(s) == (s[0] * B + s[1]) * Pow(|s| - 2) + Val(s[2..])
  {
    var p := Pow(|s| - 2);
    assert s[1..][1..] == s[2..];
    Distribute(s[0], B, s[1], p);
  }

  lemma LeadingThree(s: seq<int>)
    requires |s| >= 3
    ensures Val(s) == ((s[0] * B + s[1]) * B + s[2]) * Pow(|s| - 3) + Val(s[3..])
  {
    var p := Pow(|s| - 3);
    LeadingTwo(s);
    assert s[2..][1..] == s[3..];
    Distribute(s[0] * B + s[1], B, s[2], p);
  }

  /** The dividend digit never exceeds the divisor's while the remainder is in range. */
  lemma FirstDigitAtMost(us: seq<int>, vs: seq<int>)
    requires |vs| >= 1 && |us| == |vs| + 1 && IsDigits(us) && IsDigits(vs)
    requires Val(us) < B * Val(vs)
    ensures us[0] <= vs[0]
  {
    ValBound(vs[1..]);
    ValBound(us[1..]);
    LeadingCompare(us[0], vs[0], Pow(|vs| - 1), Val(us[1..]), Val(vs[1..]));
  }

  lemma LeadingCompare(u0: int, v0: int, p: int, ur: int, vr: int)
    requires p > 0 && 0 <= ur && 0 <= vr < p && u0 * (B * p) + ur < B * (v0 * p + vr)
    ensures u0 <= v0
  {
    assert (v0 + 1) * (B * p) == B * (v0 * p) + B * p;
    if u0 >= v0 + 1 {
      MulMono(v0 + 1, u0, B * p);
      assert false;
    }
  }

  /** D3 on the arrays: the true digit or one more. */
  method Estimate(u: array<int>, at: nat, v: array<int>, vo: nat, n: nat) returns (q: int)
    requires at + n < u.Length && vo + n < v.Length && n >= 2
    requires IsDigits(u[..]) && IsDigits(v[..]) && v[vo + 1] > 0
    requires Val(u[at..at + n + 1]) < B * Val(v[vo + 1..vo + n + 1])
    ensures 0 <= q < B && Val(v[vo + 1..vo + n + 1]) > 0
    ensures var d := Val(u[at..at + n + 1]) / Val(v[vo + 1..vo + n + 1]); d <= q <= d + 1
  {
    ghost var us := u[at..at + n + 1];
    ghost var vs := v[vo + 1..vo + n + 1];
    FirstDigitAtMost(us, vs);
    q := EstimateDigit(u[at], u[at + 1], u[at + 2], v[vo + 1], v[vo + 2]);
    EstimateForDigits(us, vs, q);
  }

  /** D3 to D6 for one j: u[at..at+n] becomes its remainder modulo v, and the
      quotient digit is returned. */
  method DivideDigit(u: array<int>, at: nat, v: array<int>, vo: nat, n: nat) returns (q: int)
    requires u != v && at + n < u.Length && vo + n < v.Length && n >= 2
    requires IsDigits(u[..]) && IsDigits(v[..]) && v[vo + 1] > 0
    requires Val(u[at..at + n + 1]) < B * Val(v[vo + 1..vo + n + 1])
    modifies u
    ensures IsDigits(u[..]) && 0 <= q < B
    ensures forall k :: 0 <= k < u.Length && !(at <= k <= at + n) ==> u[k] == old(u[k])
    ensures 0 <= Val(u[at..at + n + 1]) < Val(v[vo + 1..vo + n + 1])
    ensures old(Val(u[at..at + n + 1])) == q * Val(v[vo + 1..vo + n + 1]) + Val(u[at..at + n + 1])
  {
    ghost var u0, vv := Val(u[at..at + n + 1]), Val(v[vo + 1..vo + n + 1]);
    ValBound(u[at..at + n + 1]);
    ValBound(v[vo + 1..vo + n + 1]);
    q := Estimate(u, at, v, vo, n);
    var borrow := MultiplySubtract(u, at, v, vo, n, q);
    ghost var u1 := Val(u[at..at + n + 1]);
    ValBound(u[at..at + n + 1]);
    DigitKnown(u0, vv, q, u1, borrow, Pow(n));
    if borrow {
      q := q - 1;
      ghost var carry := AddBack(u, at, v, vo, n);
      ValBound(u[at..at + n + 1]);
    }
  }

  /** A borrow shows exactly that qhat was one too large. */
  lemma DigitKnown(u: int, v: int, qhat: int, u1: int, borrow: bool, p: int)
    requires 0 < v < p && 0 <= u && u / v <= qhat <= u / v + 1
    requires 0 <= u1 < B * p
    requires u1 == u - qhat * v + if borrow then B * p else 0
    ensures 0 <= u / v
    ensures !borrow ==> u1 < v && qhat == u / v && u == qhat * v + u1
    ensures borrow ==> qhat - 1 == u / v && B * p <= u1 + v < B * p + v && u == (qhat - 1) * v + (u1 + v - B * p)
  {
    QuotientTimes(u, v);
    assert (u / v + 1) * v == (u / v) * v + v;
    assert (qhat - 1) * v == qhat * v - v;
    if qhat == u / v { assert !borrow; } else { assert qhat == u / v + 1; }
  }

  // ------------------------------------------------------------- D2 and D7: the loop on j

  /** After j digits: dividend == quotient so far * divisor * B^(m+1-j) + rest,
      and the rest is below divisor * B^(m+1-j). */
  ghost predicate Dividing(dividend: int, divisor: int, quotient: int, rest: int, p: int) {
    dividend == quotient * (divisor * p) + rest && 0 <= rest < divisor * p
  }

  lemma DividingStep(n: int, v: int, q: int, rest: int, p: int, u: int, low: int, digit: int, u': int)
    requires Dividing(n, v, q, rest, B * p) && p > 0
    requires rest == u * p + low && 0 <= low < p
    requires u == digit * v + u' && 0 <= u' < v
    ensures Dividing(n, v, q * B + digit, u' * p + low, p)
  {
    assert (digit * v + u') * p == digit * (v * p) + u' * p;
    assert (q * B + digit) * (v * p) == q * B * (v * p) + digit * (v * p);
    assert q * (v * (B * p)) == q * B * (v * p);
    MulMono(u', v - 1, p);
    MulMono(0, u', p);
    assert (v - 1) * p == v * p - p;
  }

  lemma RunningRemainderFits(v: int, rest: int, p: int, u: int, low: int)
    requires p > 0 && rest == u * p + low && 0 <= low && rest < v * (B * p)
    ensures u < B * v
  {
    assert v * (B * p) == (B * v) * p;
    if u >= B * v {
      MulMono(B * v, u, p);
      assert false;
    }
  }

  /** The current dividend, with its j leading digits already cleared. */
  lemma RestOfDividend(u: seq<int>, uo: nat, j: nat, mid: nat)
    requires uo + j <= mid <= |u| && IsDigits(u)
    requires forall k :: uo <= k < uo + j ==> u[k] == 0
    ensures Val(u[uo..]) == Val(u[uo + j..mid]) * Pow(|u| - mid) + Val(u[mid..])
    ensures 0 <= Val(u[mid..]) < Pow(|u| - mid)
  {
    ValSkipZeros(u, uo, uo + j);
    TailCut(u, uo + j, mid);
  }

  lemma TailCut(u: seq<int>, lo: nat, mid: nat)
    requires lo <= mid <= |u| && IsDigits(u)
    ensures Val(u[lo..]) == Val(u[lo..mid]) * Pow(|u| - mid) + Val(u[mid..])
    ensures 0 <= Val(u[mid..]) < Pow(|u| - mid)
  {
    CutInTwo(u, lo, mid);
    Joined(u[lo..], u[lo..mid], u[mid..], |u| - mid);
    TailBound(u, mid);
  }

  lemma CutInTwo(u: seq<int>, lo: nat, mid: nat)
    requires lo <= mid <= |u|
    ensures u[lo..] == u[lo..mid] + u[mid..]
  {
  }

  lemma Joined(s: seq<int>, x: seq<int>, y: seq<int>, n: nat)
    requires s == x + y && n == |y|
    ensures Val(s) == Val(x) * Pow(n) + Val(y)
  {
    ValConcat(x, y);
  }

  lemma TailBound(u: seq<int>, mid: nat)
    requires mid <= |u| && IsDigits(u)
    ensures 0 <= Val(u[mid..]) < Pow(|u| - mid)
  {
    ValBound(u[mid..]);
  }

  /** One round of the loop on j. */
  method DivideRound(u: array<int>, uo: nat, v: array<int>, vo: nat, n: nat, m: nat, j: nat, ghost dividend: int,
      ghost quotient: int)
    returns (digit: int)
    requires u != v && uo + m + n + 1 == u.Length && vo + n + 1 == v.Length && n >= 2 && j <= m
    requires IsDigits(u[..]) && IsDigits(v[..]) && v[vo + 1] > 0
    requires forall k :: uo <= k < uo + j ==> u[k] == 0
    requires Dividing(dividend, Val(v[vo + 1..]), quotient, Val(u[uo..]), Pow(m + 1 - j))
    modifies u
    ensures IsDigits(u[..]) && 0 <= digit < B
    ensures forall k :: 0 <= k < uo ==> u[k] == old(u[k])
    ensures forall k :: uo <= k < uo + j + 1 ==> u[k] == 0
    ensures Dividing(dividend, Val(v[vo + 1..]), quotient * B + digit, Val(u[uo..]), Pow(m - j))
  {
    ghost var at, mid := uo + j, uo + j + n + 1;
    ghost var vv := Val(v[vo + 1..]);
    ghost var was := u[..];
    RestOfDividend(was, uo, j, mid);
    ghost var u0, low := Val(u[at..mid]), Val(u[mid..]);
    assert was[at..mid] == u[at..mid] && was[mid..] == u[mid..] && was[uo..] == u[uo..];
    assert v[vo + 1..vo + n + 1] == v[vo + 1..];
    RunningRemainderFits(vv, Val(u[uo..]), Pow(m - j), u0, low);
    digit := DivideDigit(u, uo + j, v, vo, n);
    ghost var now := u[..];
    assert now[mid..] == was[mid..];
    assert now[at..mid] == u[at..mid] && now[uo..] == u[uo..];
    ValBound(v[vo + 1..]);
    SmallHasZeroHead(now, at, mid);
    RestOfDividend(now, uo, j, mid);
    DividingStep(dividend, vv, quotient, Val(was[uo..]), Pow(m - j), u0, low, digit, Val(u[at..mid]));
  }

  /** D2 to D7: the digits of the quotient go to q[qo..], and u keeps the remainder. */
  method DivideDigits(u: array<int>, uo: nat, v: array<int>, vo: nat, n: nat, m: nat, q: array<int>, qo: nat)
    requires u != v && u != q && q != v
    requires uo + m + n + 1 == u.Length && vo + n + 1 == v.Length && n >= 2 && qo + m + 1 == q.Length
    requires IsDigits(u[..]) && IsDigits(v[..]) && v[vo + 1] > 0
    requires Val(u[uo..]) < Val(v[vo + 1..]) * Pow(m + 1)
    modifies u, q
    ensures IsDigits(u[..])
    ensures forall k :: 0 <= k < uo ==> u[k] == old(u[k])
    ensures forall k :: uo <= k <= uo + m ==> u[k] == 0
    ensures forall k :: 0 <= k < qo ==> q[k] == old(q[k])
    ensures IsDigits(q[qo..])
    ensures old(Val(u[uo..])) == Val(q[qo..]) * Val(v[vo + 1..]) + Val(u[uo..])
    ensures 0 <= Val(u[uo..]) < Val(v[vo + 1..])
  {
    ghost var dividend, vv := Val(u[uo..]), Val(v[vo + 1..]);
    ValBound(u[uo..]);
    assert q[qo..qo] == [];
    assert 0 * (vv * Pow(m + 1)) == 0;
    var j := 0;
    while j <= m
      invariant 0 <= j <= m + 1 && IsDigits(u[..])
      invariant forall k :: 0 <= k < uo ==> u[k] == old(u[k])
      invariant forall k :: uo <= k < uo + j ==> u[k] == 0
      invariant forall k :: 0 <= k < qo ==> q[k] == old(q[k])
      invariant IsDigits(q[qo..qo + j])
      invariant Dividing(dividend, vv, Val(q[qo..qo + j]), Val(u[uo..]), Pow(m + 1 - j))
    {
      ghost var done := q[qo..qo + j];
      var digit := DivideRound(u, uo, v, vo, n, m, j, dividend, Val(done));
      q[qo + j] := digit;
      AppendDigit(done, digit);
      assert q[qo..qo + j + 1] == done + [digit];
      j := j + 1;
    }
    assert q[qo..qo + j] == q[qo..];
    assert vv * Pow(0) == vv;
  }

  lemma AppendDigit(s: seq<int>, d: int)
    ensures Val(s + [d]) == Val(s) * B + d
  {
    ValConcat(s, [d]);
    assert Pow(1) == B * Pow(0) == B;
    assert Val([d]) == d * Pow(0) + Val([d][1..]) == d;
  }

  // -------------------------------------------------------------------- __qdivrem

  /** Division by zero traps; otherwise a quotient and, if asked for, a remainder. */
  datatype DivResult = Trap | Divided(quotient: int, remainder: int)

  /** The digits of a 64-bit number, after a free leading place. */
  method Split(x: int) returns (s: array<int>)
    requires 0 <= x < W2
    ensures fresh(s) && s.Length == 5 && IsDigits(s[..]) && s[0] == 0 && Val(s[1..]) == x
  {
    s := new int[5];
    s[0] := 0;
    s[1] := HHalf(x / W);
    s[2] := LHalf(x / W);
    s[3] := HHalf(x % W);
    s[4] := LHalf(x % W);
    FourDigits(s[1], s[2], s[3], s[4]);
    assert s[1..] == [s[1], s[2], s[3], s[4]];
  }

  lemma FourDigits(a: int, b: int, c: int, d: int)
    ensures Val([a, b, c, d]) == ((a * B + b) * B + c) * B + d
  {
    assert [a, b, c, d] == [] + [a] + [b] + [c] + [d];
    assert Val([]) * B == 0;
    AppendDigit([], a);
    AppendDigit([] + [a], b);
    AppendDigit([] + [a] + [b], c);
    AppendDigit([] + [a] + [b] + [c], d);
  }

  /** COMBINE the last four digits into a long long. */
  method Assemble(s: array<int>) returns (x: int)
    requires s.Length == 5 && IsDigits(s[1..])
    ensures x == Val(s[1..]) && 0 <= x < W2
  {
    forall k | 1 <= k < 5 ensures 0 <= s[k] < B { assert s[k] == s[1..][k - 1]; }
    x := Combine(s[1], s[2]) * W + Combine(s[3], s[4]);
    FourDigits(s[1], s[2], s[3], s[4]);
    assert s[1..] == [s[1], s[2], s[3], s[4]];
  }

  /** One digit of short division. */
  method ShortDigit(r: int, d: int, t: int) returns (q: int, r': int)
    requires 0 < t < B && 0 <= r < t && 0 <= d < B
    ensures r * B + d == q * t + r' && 0 <= q < B && 0 <= r' < t
  {
    var rbj := Combine(r, d);
    assert rbj == r * B + d;
    QuotientBelow(B, rbj, t);
    QuotientTimes(rbj, t);
    q, r' := rbj / t, rbj % t;
    assert rbj == t * q + r';
  }

  /** Short division by a one-digit divisor (Knuth's exercise 16). */
  method DivideByDigit(u: array<int>, t: int) returns (q: int, r: int)
    requires u.Length == 5 && IsDigits(u[..]) && 0 < t < B
    ensures Val(u[1..]) == q * t + r && 0 <= r < t && 0 <= q < W2
  {
    assert u[..] == [u[0], u[1], u[2], u[3], u[4]];
    var q1, r1 := ShortDigit(0, u[1], t);
    var q2, r2 := ShortDigit(r1, u[2], t);
    var q3, r3 := ShortDigit(r2, u[3], t);
    var q4, r4 := ShortDigit(r3, u[4], t);
    q, r := Combine(q1, q2) * W + Combine(q3, q4), r4;
    FourDigits(u[1], u[2], u[3], u[4]);
    assert u[1..] == [u[1], u[2], u[3], u[4]];
    ShortTotal(t, u[1], u[2], u[3], u[4], q1, q2, q3, q4, r1, r2, r3, r4);
    TwoHalves(q1, q2, q3, q4);
  }

  /** Two words of two digits each. */
  lemma TwoHalves(a: int, b: int, c: int, d: int)
    requires 0 <= a < B && 0 <= b < B && 0 <= c < B && 0 <= d < B
    ensures Combine(a, b) * W + Combine(c, d) == ((a * B + b) * B + c) * B + d
    ensures 0 <= Combine(a, b) * W + Combine(c, d) < W2
  {
  }

  lemma ShortTotal(t: int, u1: int, u2: int, u3: int, u4: int, q1: int, q2: int, q3: int, q4: int, r1: int, r2: int,
      r3: int, r4: int)
    requires u1 == q1 * t + r1 && r1 * B + u2 == q2 * t + r2 && r2 * B + u3 == q3 * t + r3 && r3 * B + u4 == q4 * t + r4
    ensures ((u1 * B + u2) * B + u3) * B + u4 == (((q1 * B + q2) * B + q3) * B + q4) * t + r4
  {
    ShortSum(t, q1, q2, q3, q4);
  }

  lemma ShortSum(t: int, a: int, b: int, c: int, d: int)
    ensures (((a * B + b) * B + c) * B + d) * t == ((a * t * B + b * t) * B + c * t) * B + d * t
  {
    assert (((a * B + b) * B + c) * B + d) * t == ((a * B + b) * B + c) * t * B + d * t;
    assert ((a * B + b) * B + c) * t == (a * B + b) * t * B + c * t;
    assert (a * B + b) * t == a * t * B + b * t;
  }

  /** Position of the leading dividend digit: skipping zeros cannot go below the
      divisor's length, because the dividend is at least the divisor. */
  method SkipLeadingZeros(u: array<int>, v: array<int>, vo: nat, n: nat) returns (uo: nat, m: nat)
    requires u.Length == 5 && v.Length == 5 && vo + n == 4 && n >= 1
    requires IsDigits(u[..]) && IsDigits(v[..]) && u[0] == 0 && v[vo + 1] > 0
    requires Val(v[vo + 1..]) <= Val(u[1..])
    ensures uo + m + n == 4 && forall k :: 0 <= k <= uo ==> u[k] == 0
  {
    m, uo := 4 - n, 0;
    while u[uo + 1] == 0
      invariant uo + m + n == 4 && forall k :: 0 <= k <= uo ==> u[k] == 0
      decreases m
    {
      if m == 0 {
        SkipZeros(u, 1, uo + 2);
        ValBound(u[uo + 2..]);
        LeadingAtLeast(v[vo + 1..]);
        MulMono(1, v[vo + 1], Pow(n - 1));
        assert false;
      }
      m, uo := m - 1, uo + 1;
    }
  }

  lemma LeadingAtLeast(s: seq<int>)
    requires s != [] && IsDigits(s)
    ensures s[0] * Pow(|s| - 1) <= Val(s)
  {
    ValBound(s[1..]);
  }

  /** D1 on both arrays: the same shift multiplies dividend and divisor, and
      leaves the divisor's leading digit at B/2 or more. */
  method Normalise(u: array<int>, uo: nat, m: nat, v: array<int>, vo: nat, n: nat) returns (d: nat)
    requires u != v && uo + m + n + 1 == u.Length && vo + n + 1 == v.Length && n >= 1
    requires IsDigits(u[..]) && IsDigits(v[..]) && u[uo] == 0 && v[vo + 1] > 0
    modifies u, v
    ensures IsDigits(u[..]) && IsDigits(v[..]) && d < 16 && v[vo + 1] > 0
    ensures forall k :: 0 <= k < uo ==> u[k] == old(u[k])
    ensures Val(u[uo..]) == old(Val(u[uo..])) * Pow2(d)
    ensures Val(v[vo + 1..]) == old(Val(v[vo + 1..])) * Pow2(d)
    ensures Val(u[uo..]) < Val(v[vo + 1..]) * Pow(m + 1)
  {
    ghost var us, vs := u[uo..], v[vo + 1..];
    d := NormalisingShift(v[vo + 1]);
    if d > 0 {
      ShiftWhole(u, uo, m + n, d);
      ShiftWhole(v, vo + 1, n - 1, d);
    } else {
      assert Pow2(0) == 1;
    }
    InRange(us, vs, m, Pow2(d)) by { Pow2Mono(d, 15); Pow2Values(); }
    NormalisedNonzero(v[vo + 1..], vs, Pow2(d));
  }

  /** shl on the rest of an array, when nothing falls out on the left. */
  method ShiftWhole(u: array<int>, at: nat, len: nat, d: nat)
    requires at + len + 1 == u.Length && IsDigits(u[..]) && 0 < d < 16 && u[at] * Pow2(d) < B
    modifies u
    ensures IsDigits(u[..]) && Val(u[at..]) == old(Val(u[at..])) * Pow2(d)
    ensures forall k :: 0 <= k < at ==> u[k] == old(u[k])
  {
    ghost var us := u[at..];
    ShiftLeft(u, at, len, d);
    ShiftPair(d);
    assert us == old(u[at..at + len + 1]) && u[at..] == u[at..at + len + 1];
    NoOverflow(us, u[at..], d);
  }

  lemma NoOverflow(w: seq<int>, w': seq<int>, d: nat)
    requires d <= 16 && w != [] && ShiftedLeft(w, w', Pow2(d), Pow2(16 - d))
    requires w[0] * Pow2(d) < B
    ensures Val(w') == Val(w) * Pow2(d)
  {
    var s, t := Pow2(d), Pow2(16 - d);
    ShiftLeftVal(w, w', s, t);
    if w[0] >= t {
      MulMono(t, w[0], s);
      assert false;
    }
    QuotientIs(w[0], t, 0);
  }

  lemma InRange(us: seq<int>, vs: seq<int>, m: nat, s: int)
    requires IsDigits(us) && IsDigits(vs) && vs != [] && |us| == m + |vs| + 1 && us[0] == 0
    requires 0 < s <= B / 2 <= vs[0] * s
    ensures Val(us) * s < (Val(vs) * s) * Pow(m + 1)
  {
    var n := |vs|;
    ValBound(us[1..]);
    LeadingAtLeast(vs);
    PowAdd(n - 1, m + 1);
    var p, q, x := Pow(n - 1), Pow(m + 1), Pow(m + n);
    assert Val(us) < x == p * q;
    InRangeValues(Val(us), Val(vs), vs[0], s, p, q, x);
  }

  lemma InRangeValues(u: int, v: int, v0: int, s: int, p: int, q: int, x: int)
    requires 0 < s <= B / 2 <= v0 * s && u < x == p * q && p > 0 && q > 0 && v0 * p <= v
    ensures u * s < (v * s) * q
  {
    MulMono(u, x - 1, s);
    assert (x - 1) * s == x * s - s;
    MulMono(s, v0 * s, x) by { MulMono(0, p, q); }
    MulMono(v0 * p, v, s * q) by { MulMono(0, s, q); }
    assert s * x == x * s;
    assert v0 * s * x == v0 * p * (s * q);
    assert v * (s * q) == (v * s) * q;
  }

  lemma NormalisedNonzero(v': seq<int>, v: seq<int>, s: int)
    requires IsDigits(v') && IsDigits(v) && |v'| == |v| > 0
    requires Val(v') == Val(v) * s && v[0] * s >= B / 2 && s > 0
    ensures v'[0] > 0
  {
    ValBound(v'[1..]);
    LeadingAtLeast(v);
    var p := Pow(|v| - 1);
    MulMono(v[0] * p, Val(v), s);
    assert v[0] * p * s == v[0] * s * p;
    MulMono(1, v[0] * s, p);
    if v'[0] <= 0 { MulMono(v'[0], 0, p); assert false; }
  }

  /** Undoing the normalisation: quotient and remainder of the shifted numbers
      give those of the original ones. */
  lemma Unnormalise(u: int, v: int, s: int, q: int, r: int)
    requires s > 0 && u * s == q * (v * s) + r && 0 <= r < v * s
    ensures r == (u - q * v) * s && 0 <= u - q * v < v
  {
    assert q * (v * s) == (q * v) * s;
    assert (u - q * v) * s == u * s - (q * v) * s;
    var k := u - q * v;
    if k < 0 { MulMono(k, -1, s); assert false; }
    if k >= v { MulMono(v, k, s); assert false; }
  }

  lemma SkipZeros(a: array<int>, lo: nat, mid: nat)
    requires lo <= mid <= a.Length && forall k :: lo <= k < mid ==> a[k] == 0
    ensures Val(a[lo..]) == Val(a[mid..])
  {
    ValSkipZeros(a[..], lo, mid);
    assert a[..][lo..] == a[lo..] && a[..][mid..] == a[mid..];
  }

  /** The remainder is shifted back where it is; its leading digits are zero. */
  method TakeRemainder(u: array<int>, at: nat, d: nat, ghost k: int) returns (r: int)
    requires at < u.Length == 5 && IsDigits(u[..]) && d < 16
    requires forall i :: 0 <= i <= at ==> u[i] == 0
    requires Val(u[at..]) == k * Pow2(d) && k >= 0
    modifies u
    ensures r == k
  {
    if d > 0 {
      ShiftBack(u, at, d, k);
    } else {
      assert k * Pow2(0) == k;
    }
    SkipZeros(u, 0, at);
    SkipZeros(u, 0, 1);
    r := Assemble(u);
  }

  method ShiftBack(u: array<int>, at: nat, d: nat, ghost k: int)
    requires at < u.Length && IsDigits(u[..]) && 0 < d < 16 && u[at] == 0 && Val(u[at..]) == k * Pow2(d) && k >= 0
    modifies u
    ensures IsDigits(u[..]) && u[at] == 0 && Val(u[at..]) == k
    ensures forall i :: 0 <= i < at ==> u[i] == old(u[i])
  {
    ghost var w := u[at..];
    ShiftRight(u, at, u.Length - at - 1, d);
    assert w == old(u[at..at + (u.Length - at - 1) + 1]) && u[at..] == u[at..at + (u.Length - at - 1) + 1];
    ShiftRightVal(w, u[at..], Pow2(d), Pow2(16 - d));
    ExactShift(Val(w), Val(u[at..][1..]), w[|w| - 1] % Pow2(d), k, Pow2(d));
  }

  lemma ExactShift(w: int, q: int, low: int, k: int, s: int)
    requires s > 0 && w == k * s && w == q * s + low && 0 <= low < s
    ensures q == k
  {
    assert (k - q) * s == low by { assert (k - q) * s == k * s - q * s; }
    if k - q >= 1 { MulMono(1, k - q, s); assert false; }
    if k - q <= -1 { MulMono(k - q, -1, s); assert false; }
  }

  /** A quotient array whose first i digits are set to zero. */
  method ZeroedDigits(count: nat) returns (qs: array<int>)
    requires count <= 5
    ensures fresh(qs) && qs.Length == 5 && forall k :: 0 <= k < count ==> qs[k] == 0
  {
    qs := new int[5];
    var i := count;
    while i > 0
      invariant 0 <= i <= count && forall k :: i <= k < count ==> qs[k] == 0
    {
      i := i - 1;
      qs[i] := 0;
    }
  }

  /** The divisor's leading digit and length. */
  method DivisorLength(v: array<int>) returns (vo: nat, n: nat)
    requires v.Length == 5 && IsDigits(v[..]) && Val(v[1..]) > 0
    ensures vo + n == 4 && n >= 1 && v[vo + 1] > 0 && Val(v[vo + 1..]) == Val(v[1..])
  {
    vo, n := 0, 4;
    while v[vo + 1] == 0
      invariant vo + n == 4 && n >= 1
      invariant forall k :: 1 <= k <= vo ==> v[k] == 0
      decreases n
    {
      SkipZeros(v, 1, vo + 2);
      vo, n := vo + 1, n - 1;
    }
    SkipZeros(v, 1, vo + 1);
  }

  /** Program D on a dividend that is at least the divisor. */
  method LongDivide(u: array<int>, v: array<int>, vo: nat, n: nat, wantRem: bool) returns (q: int, r: int)
    requires u != v && u.Length == 5 && v.Length == 5 && vo + n == 4 && n >= 2
    requires IsDigits(u[..]) && IsDigits(v[..]) && u[0] == 0 && v[vo + 1] > 0
    requires Val(v[vo + 1..]) <= Val(u[1..])
    modifies u, v
    ensures 0 <= q < W2
    ensures var rem := old(Val(u[1..])) - q * old(Val(v[vo + 1..]));
            0 <= rem < old(Val(v[vo + 1..])) && (wantRem ==> r == rem)
  {
    ghost var u0, v0 := Val(u[1..]), Val(v[vo + 1..]);
    var uo, m := SkipLeadingZeros(u, v, vo, n);
    var qs := ZeroedDigits(4 - m);
    SkipZeros(u, 0, 1);
    SkipZeros(u, 0, uo);
    var d := Normalise(u, uo, m, v, vo, n);
    DivideDigits(u, uo, v, vo, n, m, qs, 4 - m);
    Unnormalise(u0, v0, Pow2(d), Val(qs[4 - m..]), Val(u[uo..]));
    SkipZeros(qs, 1, 4 - m);
    q := Assemble(qs);
    r := 0;
    if wantRem {
      SkipZeros(u, uo, uo + m);
      r := TakeRemainder(u, uo + m, d, u0 - q * v0);
    }
  }

  /** __qdivrem. */
  method UnsignedDivide(ull: int, vll: int, wantRem: bool) returns (res: DivResult)
    requires 0 <= ull < W2 && 0 <= vll < W2
    ensures vll == 0 <==> res.Trap?
    ensures res.Divided? ==>
              && 0 <= res.quotient < W2
              && 0 <= ull - res.quotient * vll < vll
              && (wantRem ==> res.remainder == ull - res.quotient * vll)
  {
    if vll == 0 {
      return Trap;
    }
    if ull < vll {
      return Divided(0, ull);
    }
    var u := Split(ull);
    var v := Split(vll);
    var vo, n := DivisorLength(v);
    if n == 1 {
      AppendDigit([], v[vo + 1]);
      assert v[vo + 1..] == [] + [v[vo + 1]];
      var q, r := DivideByDigit(u, v[vo + 1]);
      return Divided(q, r);
    }
    var q, r := LongDivide(u, v, vo, n, wantRem);
    return Divided(q, r);
  }
}
