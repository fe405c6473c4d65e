/** Printing an int with %d and reading it back with atoi: exactly when the
    number survives. */
module PrintParse {
  import opened Arithmetic
  import opened Format
  import opened Atoi
  import Printf

  ghost predicate AllModifiers(mods: string) { forall i :: 0 <= i < |mods| ==> IsModifier(mods[i]) }

  /** The field state after the characters between % and d. */
  ghost function Modified(f: Field, mods: string): Field
    requires AllModifiers(mods)
    decreases mods
  {
    if mods == "" then f else Modified(Modify(f, mods[0]), mods[1..])
  }

  const OPEN := FRESH.(inPct := true)

  lemma {:induction false} DirectivePrints(f: Field, mods: string, args: seq<Arg>)
    requires AllModifiers(mods) && f.inPct
    ensures Session(f, args, mods + "d") == IntegerText(Modified(f, mods), 'd', NextInt(args))
    decreases mods
  {
    var s := mods + "d";
    if mods == "" {
      assert s == "d" && s[1..] == "";
      assert Session(f, args, s) == IntegerText(f, 'd', NextInt(args)) + Session(FRESH, Rest(args), "");
    } else {
      assert s[1..] == mods[1..] + "d";
      DirectivePrints(Modify(f, mods[0]), mods[1..], args);
    }
  }

  ghost function Directive(mods: string): string { "%" + mods + "d" }

  lemma DirectiveOutput(mods: string, n: int)
    requires AllModifiers(mods) && -M / 2 <= n < M / 2
    ensures Output(Directive(mods), [IntArg(n)])
         == Pad(Modified(OPEN, mods), Sign(n < 0), Digits(Size(n), 10))
  {
    var s := Directive(mods);
    assert s[1..] == mods + "d";
    DirectivePrints(OPEN, mods, [IntArg(n)]);
    FetchesInt(Modified(OPEN, mods), n);
  }

  lemma FetchesInt(f: Field, n: int)
    requires -M / 2 <= n < M / 2
    ensures IntegerText(f, 'd', n) == Pad(f, Sign(n < 0), Digits(Size(n), 10))
  {
    assert Signed(n, f.size) == n;
    assert Prefix(f, 'd', n) == Sign(n < 0);
  }

  // ------------------------------------------------------ digit strings as numbers

  lemma {:induction false} DigitsAreDecimal(n: int)
    requires n >= 0
    ensures AllDigits(Digits(n, 10)) && Decimal(Digits(n, 10)) == n
    decreases n
  {
    var s := Digits(n, 10);
    if n < 10 {
      assert s[..|s| - 1] == "";
    } else {
      DigitsAreDecimal(n / 10);
      assert s[..|s| - 1] == Digits(n / 10, 10);
    }
  }

  ghost function Pow10(k: nat): (p: int)
    ensures p > 0
  {
    if k == 0 then 1 else 10 * Pow10(k - 1)
  }

  lemma TenTimes(x: int, p: int)
    ensures x * (10 * p) == x * p * 10
  {
  }

  lemma {:induction false} TrailingZeros(s: string, k: nat)
    requires AllDigits(s)
    ensures AllDigits(s + Fill('0', k)) && Decimal(s + Fill('0', k)) == Decimal(s) * Pow10(k)
  {
    var t := s + Fill('0', k);
    if k == 0 {
      assert t == s;
    } else {
      TrailingZeros(s, k - 1);
      var u := s + Fill('0', k - 1);
      assert t[..|t| - 1] == u && t[|t| - 1] == '0';
      assert Decimal(t) == Decimal(u) * 10;
      TenTimes(Decimal(s), Pow10(k - 1));
    }
  }

  lemma {:induction false} LeadingZeros(s: string, k: nat)
    requires AllDigits(s)
    ensures AllDigits(Fill('0', k) + s) && Decimal(Fill('0', k) + s) == Decimal(s)
    decreases |s|
  {
    var t := Fill('0', k) + s;
    if s == "" {
      TrailingZeros("", k);
      assert "" + Fill('0', k) == t;
    } else {
      LeadingZeros(s[..|s| - 1], k);
      assert t[..|t| - 1] == Fill('0', k) + s[..|s| - 1];
    }
  }

  lemma {:induction false} RunOfDigits(s: string, t: string)
    requires AllDigits(s) && (t == "" || !IsDigit(t[0]))
    ensures DigitRun(s + t) == |s|
    decreases |s|
  {
    if s == "" {
      assert s + t == t;
    } else {
      assert (s + t)[1..] == s[1..] + t;
      RunOfDigits(s[1..], t);
    }
  }

  lemma ParsesDigits(s: string, t: string)
    requires AllDigits(s) && (t == "" || !IsDigit(t[0]))
    ensures ParseDigits(s + t) == Decimal(s)
  {
    RunOfDigits(s, t);
    assert (s + t)[..|s|] == s;
  }

  lemma {:induction false} RunOfBlanks(k: nat, t: string)
    requires t == "" || !IsBlank(t[0])
    ensures BlankRun(Fill(' ', k) + t) == k
  {
    if k == 0 {
      assert Fill(' ', k) + t == t;
    } else {
      assert (Fill(' ', k) + t)[1..] == Fill(' ', k - 1) + t;
      RunOfBlanks(k - 1, t);
    }
  }

  function Sign(neg: bool): string { if neg then "-" else "" }

  /** Blanks, a sign, digits, and anything that is not a digit. */
  lemma ParsesField(text: string, k: nat, neg: bool, s: string, t: string)
    requires AllDigits(s) && s != "" && (t == "" || !IsDigit(t[0]))
    requires text == Fill(' ', k) + (Sign(neg) + (s + t))
    ensures Parse(text) == WithSign(neg, Decimal(s))
  {
    var body := Sign(neg) + (s + t);
    RunOfBlanks(k, body);
    assert text[k..] == body;
    ParsesDigits(s, t);
    if neg {
      assert body[0] == '-' && body[1..] == s + t;
    } else {
      assert body == s + t && IsDigit(body[0]);
    }
  }

  // ------------------------------------------------------------------ round trip

  function Size(n: int): nat { if n < 0 then -n else n }

  /** Zeros padded on the right of the number, which then belong to it. */
  ghost function ZerosAfter(f: Field, n: int): nat {
    var len := |Sign(n < 0)| + |Digits(Size(n), 10)|;
    if f.rightspc && f.fillchar == '0' && f.spacing > len then f.spacing - len else 0
  }

  lemma {:induction false} FillCharacter(f: Field, mods: string)
    requires AllModifiers(mods) && (f.fillchar == ' ' || f.fillchar == '0')
    ensures var g := Modified(f, mods); g.fillchar == ' ' || g.fillchar == '0'
    decreases mods
  {
    if mods != "" { FillCharacter(Modify(f, mods[0]), mods[1..]); }
  }

  /** atoi reads back the number, times ten for every zero padded on its right. */
  lemma ParsedValue(f: Field, n: int)
    requires f.fillchar == ' ' || f.fillchar == '0'
    ensures Parse(Pad(f, Sign(n < 0), Digits(Size(n), 10))) == WithSign(n < 0, Size(n) * Pow10(ZerosAfter(f, n)))
  {
    var k := ZerosAfter(f, n);
    var v := Size(n) * Pow10(k);
    DigitsAreDecimal(Size(n));
    TrailingZeros(Digits(Size(n), 10), k);
    PaddedParses(f, n < 0, Digits(Size(n), 10), k, v);
  }

  lemma PaddedParses(f: Field, neg: bool, digits: string, k: nat, v: int)
    requires AllDigits(digits) && digits != "" && (f.fillchar == ' ' || f.fillchar == '0')
    requires var len := |Sign(neg)| + |digits|;
             k == if f.rightspc && f.fillchar == '0' && f.spacing > len then f.spacing - len else 0
    requires AllDigits(digits + Fill('0', k)) && Decimal(digits + Fill('0', k)) == v
    ensures Parse(Pad(f, Sign(neg), digits)) == WithSign(neg, v)
  {
    var len := |Sign(neg)| + |digits|;
    var spc := if f.spacing > len then f.spacing - len else 0;
    var text := Pad(f, Sign(neg), digits);
    if f.rightspc && f.fillchar == '0' {
      assert text == Sign(neg) + digits + Fill('0', spc);
      PaddedRightZeros(neg, digits, spc, v);
    } else {
      assert digits + Fill('0', 0) == digits;
      if f.rightspc {
        assert text == Sign(neg) + digits + Fill(' ', spc);
        PaddedRightBlanks(neg, digits, spc);
      } else if f.fillchar == '0' {
        assert text == Sign(neg) + Fill('0', spc) + digits;
        PaddedLeftZeros(neg, digits, spc);
      } else {
        assert text == Fill(' ', spc) + Sign(neg) + digits;
        PaddedLeftBlanks(neg, digits, spc);
      }
    }
  }

  lemma PaddedRightZeros(neg: bool, digits: string, spc: nat, v: int)
    requires AllDigits(digits) && digits != ""
    requires AllDigits(digits + Fill('0', spc)) && Decimal(digits + Fill('0', spc)) == v
    ensures Parse(Sign(neg) + digits + Fill('0', spc)) == WithSign(neg, v)
  {
    var z := digits + Fill('0', spc);
    Regroup(Sign(neg), digits, Fill('0', spc));
    assert Sign(neg) + digits + Fill('0', spc) == Sign(neg) + z;
    ParsesField(Sign(neg) + z, 0, neg, z, "");
  }

  lemma PaddedRightBlanks(neg: bool, digits: string, spc: nat)
    requires AllDigits(digits) && digits != ""
    ensures Parse(Sign(neg) + digits + Fill(' ', spc)) == WithSign(neg, Decimal(digits))
  {
    Regroup(Sign(neg), digits, Fill(' ', spc));
    ParsesField(Sign(neg) + (digits + Fill(' ', spc)), 0, neg, digits, Fill(' ', spc));
  }

  lemma PaddedLeftZeros(neg: bool, digits: string, spc: nat)
    requires AllDigits(digits) && digits != ""
    ensures Parse(Sign(neg) + Fill('0', spc) + digits) == WithSign(neg, Decimal(digits))
  {
    var z := Fill('0', spc) + digits;
    LeadingZeros(digits, spc);
    Regroup(Sign(neg), Fill('0', spc), digits);
    ParsesField(Sign(neg) + z, 0, neg, z, "");
  }

  lemma PaddedLeftBlanks(neg: bool, digits: string, spc: nat)
    requires AllDigits(digits) && digits != ""
    ensures Parse(Fill(' ', spc) + Sign(neg) + digits) == WithSign(neg, Decimal(digits))
  {
    Regroup(Fill(' ', spc), Sign(neg), digits);
    ParsesField(Fill(' ', spc) + (Sign(neg) + digits), spc, neg, digits, "");
  }

  lemma Regroup(a: string, b: string, c: string)
    ensures a + b + c == a + (b + c) && c + "" == c && Fill(' ', 0) + (a + (b + c)) == a + (b + c)
  {
  }

  lemma Pow2Of32()
    ensures Pow2(32) == M
  {
    assert Pow2(8) == 256;
    assert Pow2(16) == 65536;
    assert Pow2(24) == 16777216;
  }

  /** An odd factor can be cancelled from a multiple of a power of two. */
  lemma {:induction false} CancelOdd(e: nat, x: int, h: int, c: int) returns (d: int)
    requires x * (2 * h + 1) == c * Pow2(e)
    ensures x == d * Pow2(e)
  {
    if e == 0 {
      d := x;
    } else {
      var y := c * Pow2(e - 1) - h * x;
      assert c * (2 * Pow2(e - 1)) == 2 * (c * Pow2(e - 1));
      assert x * (2 * h + 1) == 2 * (h * x) + x;
      assert x == 2 * y;
      assert y * (2 * h + 1) == c * Pow2(e - 1) by {
        assert 2 * (y * (2 * h + 1)) == (2 * y) * (2 * h + 1);
      }
      d := CancelOdd(e - 1, y, h, c);
      assert 2 * (d * Pow2(e - 1)) == d * (2 * Pow2(e - 1));
    }
  }

  /** Multiplying by ten at least once changes every int but 0, even modulo 2^32. */
  lemma ScaledIsDifferent(n: int, k: nat)
    requires -M / 2 <= n < M / 2 && k > 0 && ToInt(n * Pow10(k)) == n
    ensures n == 0
  {
    var v := n * Pow10(k);
    var c := v / M + if v % M < M / 2 then 0 else 1;
    assert v - n == c * M;
    var h := 5 * Pow10(k - 1) - 1;
    assert Pow10(k) == 2 * h + 2;
    assert n * (2 * h + 1) == v - n by { assert n * (2 * h + 2) == n * (2 * h + 1) + n; }
    Pow2Of32();
    var d := CancelOdd(32, n, h, c);
    assert n == d * M;
  }

  // ------------------------------------------------------- the modifiers as they are written

  /** A '0' before any other digit: it is a flag, and no part of the width. */
  predicate ZeroFlag(mods: string) {
    mods != "" && (mods[0] == '0' || (!('1' <= mods[0] <= '9') && ZeroFlag(mods[1..])))
  }

  /** The width: the digits read as a number, w being what came before. */
  function Width(w: nat, mods: string): nat
    decreases mods
  {
    if mods == "" then w
    else if '0' <= mods[0] <= '9' then Width(w * 10 + (mods[0] - '0') as nat, mods[1..])
    else Width(w, mods[1..])
  }

  /** How many there are of a character. */
  function Count(mods: string, ch: char): nat {
    if mods == "" then 0 else (if mods[0] == ch then 1 else 0) + Count(mods[1..], ch)
  }

  /** The size that n more l's make of a size: long and long long in turn. */
  function Longer(size: Size, n: nat): Size
    decreases n
  {
    if n == 0 then size else Longer(if size == LongSz then LLongSz else LongSz, n - 1)
  }

  lemma {:induction false} ModifiersMean(f: Field, mods: string)
    requires AllModifiers(mods)
    ensures var g := Modified(f, mods);
      && (g.rightspc <==> f.rightspc || '-' in mods) && (g.altformat <==> f.altformat || '#' in mods)
      && g.size == Longer(f.size, Count(mods, 'l')) && g.inPct == f.inPct
      && (g.fillchar == '0' <==> f.fillchar == '0' || (f.spacing == 0 && ZeroFlag(mods)))
      && g.spacing == Width(f.spacing, mods)
    decreases mods
  {
    if mods != "" {
      ModifiersMean(Modify(f, mods[0]), mods[1..]);
      assert mods == [mods[0]] + mods[1..];
      assert '-' in mods <==> mods[0] == '-' || '-' in mods[1..];
      assert '#' in mods <==> mods[0] == '#' || '#' in mods[1..];
    }
  }

  /** Zeros are padded on the right: '-' comes with a leading '0', and the field is wider
      than the number. */
  predicate PadsZerosRight(mods: string, n: int) {
    '-' in mods && ZeroFlag(mods) && Width(0, mods) > |Sign(n < 0)| + |Digits(Size(n), 10)|
  }

  lemma PadsZerosRightIs(mods: string, n: int)
    requires AllModifiers(mods)
    ensures PadsZerosRight(mods, n) <==> ZerosAfter(Modified(OPEN, mods), n) > 0
  {
    ModifiersMean(OPEN, mods);
  }

  /** For every directive %<modifiers>d and every int: atoi gives the number back
      if and only if no zeros were padded on its right, or it is 0. */
  lemma RoundTrip(mods: string, n: int)
    requires AllModifiers(mods) && -M / 2 <= n < M / 2
    ensures Parse(Output(Directive(mods), [IntArg(n)])) == n <==> !PadsZerosRight(mods, n) || n == 0
  {
    var f := Modified(OPEN, mods);
    DirectiveOutput(mods, n);
    FillCharacter(OPEN, mods);
    ParsedValue(f, n);
    SurvivesScaling(n, ZerosAfter(f, n));
    PadsZerosRightIs(mods, n);
  }

  lemma SurvivesScaling(n: int, k: nat)
    requires -M / 2 <= n < M / 2
    ensures WithSign(n < 0, Size(n) * Pow10(k)) == n <==> k == 0 || n == 0
  {
    ScaledWithSign(n, Pow10(k));
    if k == 0 {
      assert ToInt(n) == n;
    } else if n == 0 {
      assert n * Pow10(k) == 0;
    } else if ToInt(n * Pow10(k)) == n {
      ScaledIsDifferent(n, k);
    }
  }

  lemma ScaledWithSign(n: int, p: int)
    ensures WithSign(n < 0, Size(n) * p) == ToInt(n * p)
    ensures p == 1 ==> n * p == n
  {
    var v := Size(n) * p;
    if n < 0 { assert -v == n * p; } else { assert v == n * p; }
  }

  lemma MinusZeroThree(mods: string)
    requires mods == "-03"
    ensures AllModifiers(mods) && Modified(OPEN, mods) == OPEN.(rightspc := true, fillchar := '0', spacing := 3)
  {
    var f := Modify(OPEN, '-');
    var g := Modify(f, '0');
    assert mods[1..] == "03" && mods[1..][1..] == "3" && mods[1..][1..][1..] == "";
    assert f == OPEN.(rightspc := true) && g == f.(fillchar := '0') && Modify(g, '3') == g.(spacing := 3);
    assert Modified(OPEN, mods) == Modified(f, "03") == Modified(g, "3") == Modified(g.(spacing := 3), "");
  }

  lemma SevenHundred(f: Field)
    requires f.rightspc && f.fillchar == '0' && f.spacing == 3
    ensures Pad(f, "", Digits(7, 10)) == "700" && Parse(Pad(f, "", Digits(7, 10))) == 700
  {
    ParsedValue(f, 7);
    assert Digits(7, 10) == "7" && Pow10(2) == 10 * Pow10(1) == 100;
  }

  /** The failing family is not empty: "%-03d" prints 7 as "700". */
  lemma RoundTripFails(mods: string)
    requires mods == "-03"
    ensures AllModifiers(mods) && Output(Directive(mods), [IntArg(7)]) == "700"
    ensures Parse(Output(Directive(mods), [IntArg(7)])) == 700
  {
    MinusZeroThree(mods);
    DirectiveOutput(mods, 7);
    SevenHundred(Modified(OPEN, mods));
  }

  lemma DirectiveHasNoNul(mods: string, n: int)
    requires AllModifiers(mods) && -M / 2 <= n < M / 2
    ensures NUL !in Output(Directive(mods), [IntArg(n)])
  {
    DirectiveOutput(mods, n);
    FillCharacter(OPEN, mods);
    DigitsAreDecimal(Size(n));
    NoNulInPad(Modified(OPEN, mods), n < 0, Digits(Size(n), 10));
  }

  lemma NoNulInPad(f: Field, neg: bool, digits: string)
    requires AllDigits(digits) && (f.fillchar == ' ' || f.fillchar == '0')
    ensures NUL !in Pad(f, Sign(neg), digits)
  {
  }

  /** snprintf into a buffer that holds the whole output, then atoi on it. */
  method PrintThenRead(buf: array<char>, mods: string, n: int) returns (r: int)
    requires AllModifiers(mods) && -M / 2 <= n < M / 2
    requires |Output(Directive(mods), [IntArg(n)])| < buf.Length
    modifies buf
    ensures r == n <==> !PadsZerosRight(mods, n) || n == 0
  {
    ghost var text := Output(Directive(mods), [IntArg(n)]);
    var chars := Printf.VSnprintf(buf, buf.Length, "%" + mods + "d", [IntArg(n)]);
    DirectiveHasNoNul(mods, n);
    assert text[..chars] == text;
    r := Atoi.Atoi(buf, text);
    RoundTrip(mods, n);
  }
}
