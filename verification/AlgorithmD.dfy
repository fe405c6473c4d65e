/** Steps D3 to D6 of Knuth's Algorithm D (vol. 2, section 4.3.1) as qdivrem.c
    runs them: a digit of the quotient is estimated from three dividend and two
    divisor digits, multiplied back and subtracted in place with wrapping 32-bit
    borrows, and repaired by at most one add-back. */
module AlgorithmD {
  import opened Arithmetic
  import opened Digits

  // ------------------------------------------------------------------ theory

  /** Any base b, any number of digits (p = b^(n-2)): the quotient of the three
      leading digits by the two leading ones, cut off at b-1, is the true digit
      or one more.  This is why a single add-back is enough. */
  lemma QhatIsQuotientOrOneMore(b: int, p: int, u3: int, ur: int, v2: int, vr: int, qhat: int)
    requires b >= 2 && p >= 1
    requires 0 <= ur < p && 0 <= vr < p && 0 <= u3 && v2 >= b
    requires u3 * p + ur < b * (v2 * p + vr)
    requires qhat == if u3 / v2 < b - 1 then u3 / v2 else b - 1
    ensures v2 * p + vr > 0
    ensures (u3 * p + ur) / (v2 * p + vr) <= qhat <= (u3 * p + ur) / (v2 * p + vr) + 1
  {
    var u, v := u3 * p + ur, v2 * p + vr;
    assert b * p <= v2 * p by { MulMono(b, v2, p); }
    assert b * p >= 1 by { MulMono(1, b, p); }
    assert 0 <= u by { MulMono(0, u3, p); }
    QuotientTimes(u3, v2);
    assert qhat * v2 <= u3 by { MulMono(qhat, u3 / v2, v2); }
    assert 0 <= qhat <= b;
    QuotientAtLeast(u, v, qhat - 1) by { QhatNotTwoMore(b, p, u3, ur, v2, vr, qhat); }
    var q := u / v;
    QuotientBelow(b, u, v);
    QuotientTimes(u, v);
    QuotientAtLeast(u3, v2, q) by { QuotientFitsLeading(p, u3, ur, v2, vr, q); }
  }

  /** (qhat - 1) * v <= u, because qhat * v2 <= u3 and qhat * vr <= b * p <= v. */
  lemma QhatNotTwoMore(b: int, p: int, u3: int, ur: int, v2: int, vr: int, qhat: int)
    requires 0 <= ur && 0 <= vr < p && b * p <= v2 * p && qhat * v2 <= u3 && 0 <= qhat <= b
    ensures (qhat - 1) * (v2 * p + vr) <= u3 * p + ur
  {
    MulMono(qhat * v2, u3, p);
    assert vr * qhat <= p * qhat by { MulMono(vr, p, qhat); }
    assert qhat * p <= b * p by { MulMono(qhat, b, p); }
    Expand(qhat, v2, p, vr);
  }

  /** q * v2 <= u3, because q * v <= u < (u3 + 1) * p. */
  lemma QuotientFitsLeading(p: int, u3: int, ur: int, v2: int, vr: int, q: int)
    requires 0 <= ur < p && 0 <= vr && 0 <= q && q * (v2 * p + vr) <= u3 * p + ur
    ensures q * v2 <= u3
  {
    Expand(q, v2, p, vr);
    assert vr * q >= 0 by { MulMono(0, q, vr); }
    if q * v2 >= u3 + 1 {
      MulMono(u3 + 1, q * v2, p);
      assert false;
    }
  }

  lemma Expand(q: int, v2: int, p: int, vr: int)
    ensures (q - 1) * (v2 * p + vr) == q * v2 * p + vr * q - (v2 * p + vr)
    ensures q * (v2 * p + vr) == q * v2 * p + vr * q
  {
    assert q * (v2 * p + vr) == q * (v2 * p) + q * vr;
    assert q * (v2 * p) == q * v2 * p;
  }

  // ---------------------------------------------------------------------- D3

  /** What D3 keeps: rhat goes with qhat, and qhat + 1 is known to be too big. */
  ghost predicate Estimating(nn: int, uj2: int, v1: int, v2: int, qhat: int, rhat: int) {
    && 0 <= qhat < B && 0 <= rhat == nn - qhat * v1
    && (qhat == B - 1 || nn * B + uj2 < (qhat + 1) * (v1 * B + v2))
  }

  /** D3 with its jump into the loop: the result is the three-by-two-digit
      quotient, cut off at B-1. */
  method EstimateDigit(uj0: int, uj1: int, uj2: int, v1: int, v2: int) returns (qhat: int)
    requires 0 <= uj0 < B && 0 <= uj1 < B && 0 <= uj2 < B
    requires 0 < v1 < B && 0 <= v2 < B && uj0 <= v1
    ensures 0 <= qhat < B
    ensures var u3, v12 := (uj0 * B + uj1) * B + uj2, v1 * B + v2;
            qhat == if u3 / v12 < B - 1 then u3 / v12 else B - 1
  {
    ghost var nn := uj0 * B + uj1;
    var rhat;
    var stop := false;
    if uj0 == v1 {
      qhat := B - 1;                       // qhat = B, entered at qhat_too_big
      rhat := uj1 + v1;
      stop := rhat >= B;
      assert nn - (B - 1) * v1 == rhat;
    } else {
      qhat := Combine(uj0, uj1) / v1;
      rhat := Combine(uj0, uj1) % v1;
      FirstGuess(nn, uj2, v1, v2, qhat, rhat);
    }
    while !stop && Wrap32(v2 * qhat) > Combine(rhat, uj2)
      invariant Estimating(nn, uj2, v1, v2, qhat, rhat)
      invariant stop <==> rhat >= B
      decreases qhat
    {
      EstimateStep(nn, uj2, v1, v2, qhat, rhat);
      qhat := qhat - 1;
      rhat := rhat + v1;
      stop := rhat >= B;
    }
    EstimateDone(nn, uj2, v1, v2, qhat, rhat);
  }

  lemma EstimateStep(nn: int, uj2: int, v1: int, v2: int, qhat: int, rhat: int)
    requires Estimating(nn, uj2, v1, v2, qhat, rhat)
    requires 0 < v1 && 0 <= v2 < B && 0 <= uj2 < B && rhat < B
    requires Wrap32(v2 * qhat) > Combine(rhat, uj2)
    ensures Estimating(nn, uj2, v1, v2, qhat - 1, rhat + v1)
  {
    Products(v2, qhat);
    TooBigByTest(nn, uj2, v1, v2, qhat, rhat);
    assert (qhat - 1) * v1 == qhat * v1 - v1;
    assert qhat != 0;
  }

  lemma FirstGuess(nn: int, uj2: int, v1: int, v2: int, qhat: int, rhat: int)
    requires 0 < v1 && 0 <= nn < B * v1 && 0 <= uj2 < B && 0 <= v2
    requires qhat == nn / v1 && rhat == nn % v1
    ensures Estimating(nn, uj2, v1, v2, qhat, rhat) && rhat < v1
  {
    QuotientTimes(nn, v1);
    QuotientBelow(B, nn, v1);
    QuotientIs(nn, v1, qhat);
    TooBigByFirst(nn, uj2, v1, v2, qhat);
  }

  lemma EstimateDone(nn: int, uj2: int, v1: int, v2: int, qhat: int, rhat: int)
    requires Estimating(nn, uj2, v1, v2, qhat, rhat)
    requires 0 < v1 && 0 <= v2 < B && 0 <= uj2 && 0 <= nn
    requires uj2 < B && (rhat >= B || Wrap32(v2 * qhat) <= Combine(rhat, uj2))
    ensures var u3, v12 := nn * B + uj2, v1 * B + v2;
            qhat == if u3 / v12 < B - 1 then u3 / v12 else B - 1
  {
    var u3, v12 := nn * B + uj2, v1 * B + v2;
    Products(v2, qhat);
    FitsByTest(nn, uj2, v1, v2, qhat, rhat);
    QuotientAtLeast(u3, v12, qhat);
    if qhat < B - 1 {
      assert u3 - qhat * v12 < v12;
      QuotientIs(u3, v12, qhat);
    }
  }

  lemma Products(x: int, y: int)
    requires 0 <= x < B && 0 <= y < B
    ensures 0 <= x * y < W && Wrap32(x * y) == x * y
  {
    MulMono(0, x, y);
    MulMono(x, B - 1, y);
  }

  lemma TooBigByFirst(nn: int, uj2: int, v1: int, v2: int, qhat: int)
    requires 0 <= uj2 < B && 0 <= v2 && 0 <= qhat && nn < qhat * v1 + v1
    ensures nn * B + uj2 < (qhat + 1) * (v1 * B + v2)
  {
    assert (qhat + 1) * (v1 * B + v2) == (qhat + 1) * v1 * B + (qhat + 1) * v2 by {
      Expand(qhat + 1, v1, B, v2);
      assert v2 * (qhat + 1) == (qhat + 1) * v2;
    }
    assert (qhat + 1) * v1 == qhat * v1 + v1;
    MulMono(0, qhat + 1, v2);
  }

  lemma TooBigByTest(nn: int, uj2: int, v1: int, v2: int, qhat: int, rhat: int)
    requires rhat == nn - qhat * v1 && v2 * qhat > rhat * B + uj2
    ensures nn * B + uj2 < qhat * (v1 * B + v2)
  {
    Expand(qhat, v1, B, v2);
    assert (nn - qhat * v1) * B == nn * B - qhat * v1 * B;
  }

  lemma FitsByTest(nn: int, uj2: int, v1: int, v2: int, qhat: int, rhat: int)
    requires 0 <= qhat < B && 0 <= v2 < B && 0 <= uj2
    requires rhat == nn - qhat * v1
    requires rhat >= B || v2 * qhat <= rhat * B + uj2
    ensures qhat * (v1 * B + v2) <= nn * B + uj2
  {
    Products(v2, qhat);
    Expand(qhat, v1, B, v2);
    assert (nn - qhat * v1) * B == nn * B - qhat * v1 * B;
  }

  // ---------------------------------------------------------------------- D4

  /** One digit of D4: the wrapped word t splits into the digit to store and
      the borrow (B - HHALF(t)) & (B - 1), exactly. */
  lemma BorrowIsExact(u: int, v: int, qhat: int, c: int)
    requires 0 <= u < B && 0 <= v < B && 0 <= qhat < B && 0 <= c < B
    ensures var t := Wrap32(u - v * qhat - c);
            var c' := (B - HHalf(t)) % B;
            0 <= c' < B && u - v * qhat - c == LHalf(t) - c' * B
  {
    MulMono(0, v, qhat);
    MulMono(v, B - 1, qhat);
    var x := u - v * qhat - c;
    assert -W + B <= x < B;
    var t := Wrap32(x);
    if x >= 0 { assert t == x; } else { assert t == x + W; }
  }

  lemma SubtractDigit(p: int, u: int, v: int, q: int, c: int, lo: int, c': int, us: int, vs: int, ws: int)
    requires u - v * q - c == lo - c' * B
    requires ws == us - q * vs + c * p
    ensures lo * p + ws == (u * p + us) - q * (v * p + vs) + c' * (B * p)
  {
    assert q * (v * p + vs) == v * q * p + q * vs by {
      assert q * (v * p) == v * q * p;
    }
    assert (u - v * q - c) * p == u * p - v * q * p - c * p;
    assert (lo - c' * B) * p == lo * p - c' * (B * p);
  }

  /** D4 with the digits at + i + 1 .. at + n done and borrow t pending. */
  ghost predicate Subtracted(now: seq<int>, was: seq<int>, at: nat, v: seq<int>, n: nat, qhat: int, i: nat, t: int)
    requires i <= n && at + n < |was| == |now| && n == |v|
  {
    && (forall k :: 0 <= k < |was| && !(at + i < k <= at + n) ==> now[k] == was[k])
    && Val(now[at + i + 1..at + n + 1]) == Val(was[at + i + 1..at + n + 1]) - qhat * Val(v[i..]) + t * Pow(n - i)
  }

  lemma SubtractedStep(now: seq<int>, was: seq<int>, at: nat, v: seq<int>, n: nat, qhat: int, i: nat, t: int, lo: int,
      t': int)
    requires 0 < i <= n && at + n < |was| == |now| && n == |v|
    requires Subtracted(now, was, at, v, n, qhat, i, t)
    requires now[at + i] - v[i - 1] * qhat - t == lo - t' * B
    ensures Subtracted(now[at + i := lo], was, at, v, n, qhat, i - 1, t')
  {
    var next := now[at + i := lo];
    assert next[at + i + 1..at + n + 1] == now[at + i + 1..at + n + 1];
    ValHead(next, at + i, at + n + 1);
    ValHead(was, at + i, at + n + 1);
    ValHead(v, i - 1, n);
    assert v[i - 1..n] == v[i - 1..] && v[i..n] == v[i..];
    SubtractDigit(Pow(n - i), was[at + i], v[i - 1], qhat, t, lo, t',
                  Val(was[at + i + 1..at + n + 1]), Val(v[i..]), Val(now[at + i + 1..at + n + 1]));
  }

  lemma SubtractedAll(now: seq<int>, was: seq<int>, at: nat, v: seq<int>, n: nat, qhat: int, t: int, lo: int,
      borrow: bool)
    requires at + n < |was| == |now| && n == |v|
    requires Subtracted(now, was, at, v, n, qhat, 0, t)
    requires now[at] - t == lo - if borrow then B else 0
    ensures Val(now[at := lo][at..at + n + 1])
         == Val(was[at..at + n + 1]) - qhat * Val(v) + if borrow then Pow(n + 1) else 0
  {
    var next := now[at := lo];
    assert next[at + 1..at + n + 1] == now[at + 1..at + n + 1];
    ValHead(next, at, at + n + 1);
    ValHead(was, at, at + n + 1);
    assert v[0..] == v;
    SubtractDigit(Pow(n), was[at], 0, qhat, t, lo, if borrow then 1 else 0,
                  Val(was[at + 1..at + n + 1]), Val(v), Val(now[at + 1..at + n + 1]));
  }

  /** One round of the D4 loop. */
  method SubtractAt(u: array<int>, k: nat, vi: int, qhat: int, t: int) returns (t': int)
    requires k < u.Length && IsDigits(u[..]) && 0 <= vi < B && 0 <= qhat < B && 0 <= t < B
    modifies u
    ensures u[..] == old(u[..])[k := u[k]] && IsDigits(u[..]) && 0 <= t' < B
    ensures old(u[k]) - vi * qhat - t == u[k] - t' * B
  {
    Products(vi, qhat);
    BorrowIsExact(u[k], vi, qhat, t);
    t' := Wrap32(u[k] - Wrap32(vi * qhat) - t);
    u[k] := LHalf(t');
    t' := (B - HHalf(t')) % B;
  }

  /** The leading digit of D4, and the test of D5. */
  method SubtractLast(u: array<int>, k: nat, t: int) returns (borrow: bool)
    requires k < u.Length && IsDigits(u[..]) && 0 <= t < B
    modifies u
    ensures u[..] == old(u[..])[k := u[k]] && IsDigits(u[..])
    ensures old(u[k]) - t == u[k] - if borrow then B else 0
  {
    var t' := Wrap32(u[k] - t);
    u[k] := LHalf(t');
    borrow := HHalf(t') != 0;
  }

  /** D4: u[at..at+n] -= qhat * v[vo+1..vo+n], in place; the result is the true
      difference, plus B^(n+1) exactly when a borrow runs off the left end. */
  method MultiplySubtract(u: array<int>, at: nat, v: array<int>, vo: nat, n: nat, qhat: int) returns (borrow: bool)
    requires u != v && at + n < u.Length && vo + n < v.Length
    requires IsDigits(u[..]) && IsDigits(v[..]) && 0 <= qhat < B
    modifies u
    ensures IsDigits(u[..])
    ensures forall k :: 0 <= k < u.Length && !(at <= k <= at + n) ==> u[k] == old(u[k])
    ensures Val(u[at..at + n + 1])
         == old(Val(u[at..at + n + 1])) - qhat * Val(v[vo + 1..vo + n + 1]) + if borrow then Pow(n + 1) else 0
  {
    ghost var was := u[..];
    ghost var vs := v[vo + 1..vo + n + 1];
    var t, i := 0, n;
    while i > 0
      invariant 0 <= i <= n && 0 <= t < B && IsDigits(u[..])
      invariant Subtracted(u[..], was, at, vs, n, qhat, i, t)
    {
      ghost var now := u[..];
      ghost var c := t;
      t := SubtractAt(u, at + i, v[vo + i], qhat, t);
      SubtractedStep(now, was, at, vs, n, qhat, i, c, u[at + i], t);
      i := i - 1;
    }
    ghost var now := u[..];
    borrow := SubtractLast(u, at, t);
    SubtractedAll(now, was, at, vs, n, qhat, t, u[at], borrow);
    assert u[at..at + n + 1] == u[..][at..at + n + 1];
    assert was[at..at + n + 1] == old(u[at..at + n + 1]);
  }

  // ---------------------------------------------------------------------- D6

  lemma AddDigit(p: int, u: int, v: int, c: int, lo: int, c': int, us: int, vs: int, ws: int)
    requires u + v + c == lo + c' * B
    requires ws + c * p == us + vs
    ensures lo * p + ws + c' * (B * p) == (u * p + us) + (v * p + vs)
  {
    assert (u + v + c) * p == u * p + v * p + c * p;
    assert (lo + c' * B) * p == lo * p + c' * (B * p);
  }

  /** D6 with the digits at + i + 1 .. at + n done and carry t pending. */
  ghost predicate Added(now: seq<int>, was: seq<int>, at: nat, v: seq<int>, n: nat, i: nat, t: int)
    requires i <= n && at + n < |was| == |now| && n == |v|
  {
    && (forall k :: 0 <= k < |was| && !(at + i < k <= at + n) ==> now[k] == was[k])
    && Val(now[at + i + 1..at + n + 1]) + t * Pow(n - i) == Val(was[at + i + 1..at + n + 1]) + Val(v[i..])
  }

  lemma AddedStep(now: seq<int>, was: seq<int>, at: nat, v: seq<int>, n: nat, i: nat, t: int, lo: int, t': int)
    requires 0 < i <= n && at + n < |was| == |now| && n == |v|
    requires Added(now, was, at, v, n, i, t)
    requires now[at + i] + v[i - 1] + t == lo + t' * B
    ensures Added(now[at + i := lo], was, at, v, n, i - 1, t')
  {
    var next := now[at + i := lo];
    assert next[at + i + 1..at + n + 1] == now[at + i + 1..at + n + 1];
    ValHead(next, at + i, at + n + 1);
    ValHead(was, at + i, at + n + 1);
    ValHead(v, i - 1, n);
    assert v[i - 1..n] == v[i - 1..] && v[i..n] == v[i..];
    AddDigit(Pow(n - i), was[at + i], v[i - 1], t, lo, t',
             Val(was[at + i + 1..at + n + 1]), Val(v[i..]), Val(now[at + i + 1..at + n + 1]));
  }

  lemma AddedAll(now: seq<int>, was: seq<int>, at: nat, v: seq<int>, n: nat, t: int, lo: int, carry: bool)
    requires at + n < |was| == |now| && n == |v|
    requires Added(now, was, at, v, n, 0, t)
    requires now[at] + t == lo + if carry then B else 0
    ensures Val(now[at := lo][at..at + n + 1]) + (if carry then Pow(n + 1) else 0) == Val(was[at..at + n + 1]) + Val(v)
  {
    var next := now[at := lo];
    assert next[at + 1..at + n + 1] == now[at + 1..at + n + 1];
    ValHead(next, at, at + n + 1);
    ValHead(was, at, at + n + 1);
    assert v[0..] == v;
    AddDigit(Pow(n), was[at], 0, t, lo, if carry then 1 else 0,
             Val(was[at + 1..at + n + 1]), Val(v), Val(now[at + 1..at + n + 1]));
  }

  lemma CarryIsExact(u: int, v: int, c: int)
    requires 0 <= u < B && 0 <= v < B && 0 <= c <= 1
    ensures var t := Wrap32(c + u + v);
            u + v + c == LHalf(t) + HHalf(t) * B && 0 <= HHalf(t) <= 1
  {
  }

  /** One round of the D6 loop; the last round has no divisor digit. */
  method AddAt(u: array<int>, k: nat, vi: int, t: int) returns (t': int)
    requires k < u.Length && IsDigits(u[..]) && 0 <= vi < B && 0 <= t <= 1
    modifies u
    ensures u[..] == old(u[..])[k := u[k]] && IsDigits(u[..]) && 0 <= t' <= 1
    ensures old(u[k]) + vi + t == u[k] + t' * B
  {
    CarryIsExact(u[k], vi, t);
    t' := Wrap32(t + u[k] + vi);
    u[k] := LHalf(t');
    t' := HHalf(t');
  }

  /** D6: u[at..at+n] += v[vo+1..vo+n] modulo B^(n+1), in place. */
  method AddBack(u: array<int>, at: nat, v: array<int>, vo: nat, n: nat) returns (ghost carry: bool)
    requires u != v && at + n < u.Length && vo + n < v.Length
    requires IsDigits(u[..]) && IsDigits(v[..])
    modifies u
    ensures IsDigits(u[..])
    ensures forall k :: 0 <= k < u.Length && !(at <= k <= at + n) ==> u[k] == old(u[k])
    ensures Val(u[at..at + n + 1]) + (if carry then Pow(n + 1) else 0)
         == old(Val(u[at..at + n + 1])) + Val(v[vo + 1..vo + n + 1])
  {
    ghost var was := u[..];
    ghost var vs := v[vo + 1..vo + n + 1];
    var t, i := 0, n;
    while i > 0
      invariant 0 <= i <= n && 0 <= t <= 1 && IsDigits(u[..])
      invariant Added(u[..], was, at, vs, n, i, t)
    {
      ghost var now := u[..];
      ghost var c := t;
      t := AddAt(u, at + i, v[vo + i], t);
      AddedStep(now, was, at, vs, n, i, c, u[at + i], t);
      i := i - 1;
    }
    ghost var now := u[..];
    ghost var c := t;
    t := AddAt(u, at, 0, t);
    carry := t != 0;
    AddedAll(now, was, at, vs, n, c, u[at], carry);
    assert u[at..at + n + 1] == u[..][at..at + n + 1];
    assert was[at..at + n + 1] == old(u[at..at + n + 1]);
  }
}
