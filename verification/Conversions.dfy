/** What a format means to a reader: which text each directive prints, as a numeral in its base,
    a string or a character, padded as the text of the directive says, and how directives and
    ordinary text follow each other. */
module Conversions {

  import opened Arithmetic
  import opened Atoi
  import opened Format
  import opened PrintParse

  // --------------------------------------------------------------------------- numerals

  /** What a digit stands for; -1 for a character that is none. */
  function ValueOf(c: char): int {
    if '0' <= c <= '9' then (c - '0') as int else if 'a' <= c <= 'f' then (c - 'a') as int + 10 else -1
  }

  /** The number that a string of digits writes down. */
  function Read(s: string, base: int): int {
    if s == "" then 0 else Read(s[..|s| - 1], base) * base + ValueOf(s[|s| - 1])
  }

  /** Digits of the base, with no zero in front unless that is all. */
  ghost predicate IsNumeral(s: string, base: int) {
    && s != "" && (s[0] == '0' ==> |s| == 1)
    && forall i :: 0 <= i < |s| ==> 0 <= ValueOf(s[i]) < base
  }

  lemma DigitValue(d: int)
    requires 0 <= d < 16
    ensures ValueOf(DigitChar(d)) == d && (DigitChar(d) == '0' <==> d == 0)
  {
  }

  lemma NotZero(s: string, base: int)
    requires IsNumeral(s, base) && Read(s, base) > 0
    ensures s[0] != '0'
  {
    assert |s| == 1 ==> s[..|s| - 1] == "";
  }

  lemma Parts(n: int, base: int)
    requires n >= 0 && base >= 2
    ensures n == (n / base) * base + n % base && 0 <= n % base < base
    ensures n >= base ==> 0 < n / base < n
  {
    var q := n / base;
    QuotientTimes(n, base);
    assert n == base * q + n % base;
    if n >= base {
      QuotientAtLeast(n, base, 1);
      MulMono(2, base, q);
      assert q * base == base * q && 2 * q <= base * q;
    }
  }

  lemma OneMoreDigit(t: string, d: int, base: int)
    requires 2 <= base <= 16 && 0 <= d < base && IsNumeral(t, base) && Read(t, base) > 0
    ensures IsNumeral(t + [DigitChar(d)], base) && Read(t + [DigitChar(d)], base) == Read(t, base) * base + d
  {
    var s := t + [DigitChar(d)];
    DigitValue(d);
    NotZero(t, base);
    assert s[..|s| - 1] == t;
  }

  /** The digits printed for a number are the numeral for it. */
  lemma {:induction false} DigitsRead(n: int, base: int)
    requires n >= 0 && 2 <= base <= 16
    ensures IsNumeral(Digits(n, base), base) && Read(Digits(n, base), base) == n
    decreases n
  {
    if n < base {
      DigitValue(n);
      assert Digits(n, base)[..0] == "";
    } else {
      Parts(n, base);
      DigitsRead(n / base, base);
      OneMoreDigit(Digits(n / base, base), n % base, base);
    }
  }

  lemma {:induction false} ReadBounds(s: string, base: int)
    requires base >= 2 && forall i :: 0 <= i < |s| ==> 0 <= ValueOf(s[i]) < base
    ensures Read(s, base) >= 0 && (s != "" && s[0] != '0' ==> Read(s, base) > 0)
  {
    if s != "" {
      var t := s[..|s| - 1];
      ReadBounds(t, base);
      MulMono(0, Read(t, base), base);
      if t != "" && s[0] != '0' {
        assert t[0] == s[0];
        MulMono(1, Read(t, base), base);
      }
    }
  }

  lemma SameDigit(a: char, b: char)
    requires ValueOf(a) == ValueOf(b) >= 0
    ensures a == b
  {
  }

  lemma QuotientAndDigit(q: int, d: int, q': int, d': int, base: int)
    requires base > 0 && 0 <= d < base && 0 <= d' < base && q * base + d == q' * base + d'
    ensures q == q' && d == d'
  {
    assert (q + 1) * base == q * base + base && (q' + 1) * base == q' * base + base;
    if q < q' { MulMono(q + 1, q', base); }
    if q > q' { MulMono(q' + 1, q, base); }
  }

  /** There is only one numeral for a number. */
  lemma {:induction false} OneNumeral(s: string, t: string, base: int)
    requires base >= 2 && IsNumeral(s, base) && IsNumeral(t, base) && Read(s, base) == Read(t, base)
    ensures s == t
    decreases |s|
  {
    var a, b := s[..|s| - 1], t[..|t| - 1];
    QuotientAndDigit(Read(a, base), ValueOf(s[|s| - 1]), Read(b, base), ValueOf(t[|t| - 1]), base);
    SameDigit(s[|s| - 1], t[|t| - 1]);
    ReadBounds(a, base);
    ReadBounds(b, base);
    if a != "" && b != "" {
      OneNumeral(a, b, base);
    }
    assert s == a + [s[|s| - 1]] && t == b + [t[|t| - 1]];
  }

  // --------------------------------------------------------------------------- padding

  /** Prefix and body in a field, as the text of the modifiers asks for it. */
  ghost function PaddedText(mods: string, prefix: string, body: string): string {
    var len := |prefix| + |body|;
    var missing := if Width(0, mods) > len then Width(0, mods) - len else 0;
    var fill := seq(missing, _ => if ZeroFlag(mods) then '0' else ' ');
    if '-' in mods then prefix + body + fill
    else if ZeroFlag(mods) then prefix + fill + body
    else fill + prefix + body
  }

  lemma PadIs(mods: string, prefix: string, body: string)
    requires AllModifiers(mods)
    ensures Pad(Modified(OPEN, mods), prefix, body) == PaddedText(mods, prefix, body)
  {
    ModifiersMean(OPEN, mods);
    FillCharacter(OPEN, mods);
  }

  // ------------------------------------------------------------------------ directives

  /** A directive with any modifiers and a conversion character. */
  ghost function Percent(mods: string, conv: char): string { "%" + mods + [conv] }

  ghost predicate IsDirective(mods: string, conv: char) { AllModifiers(mods) && !IsModifier(conv) }

  /** Whether it takes an argument. */
  predicate Consumes(conv: char) {
    conv == 'd' || conv == 'u' || conv == 'o' || conv == 'x' || conv == 'p' || conv == 's' || conv == 'c'
  }

  lemma {:induction false} ModifiersThen(f: Field, mods: string, conv: char, args: seq<Arg>, rest: string)
    requires IsDirective(mods, conv) && f.inPct
    ensures var (g, args', out) := Send(Modified(f, mods), args, conv);
      Session(f, args, mods + [conv] + rest) == out + Session(g, args', rest)
    decreases mods
  {
    var s := mods + [conv] + rest;
    ModifiersMean(f, mods);
    if mods == "" {
      assert s == [conv] + rest && s[1..] == rest;
    } else {
      assert s[1..] == mods[1..] + [conv] + rest;
      ModifiersThen(Modify(f, mods[0]), mods[1..], conv, args, rest);
      assert Session(f, args, s) == "" + Session(Modify(f, mods[0]), args, s[1..]);
    }
  }

  /** What a directive prints, by itself or with more behind it. */
  lemma DirectiveThen(mods: string, conv: char, args: seq<Arg>, rest: string)
    requires IsDirective(mods, conv)
    ensures var out := Send(Modified(OPEN, mods), args, conv).2;
      && Output(Percent(mods, conv) + rest, args) == out + Output(rest, if Consumes(conv) then Rest(args) else args)
      && Output(Percent(mods, conv), args) == out
  {
    DirectiveThen1(mods, conv, args, rest);
    DirectiveThen1(mods, conv, args, "");
    assert Percent(mods, conv) + "" == Percent(mods, conv);
    var out := Send(Modified(OPEN, mods), args, conv).2;
    assert out + "" == out;
  }

  lemma DirectiveThen1(mods: string, conv: char, args: seq<Arg>, rest: string)
    requires IsDirective(mods, conv)
    ensures Output(Percent(mods, conv) + rest, args)
         == Send(Modified(OPEN, mods), args, conv).2 + Output(rest, if Consumes(conv) then Rest(args) else args)
  {
    var s := Percent(mods, conv) + rest;
    ModifiersMean(OPEN, mods);
    assert s[0] == '%' && s[1..] == mods + [conv] + rest;
    ModifiersThen(OPEN, mods, conv, args, rest);
    assert Session(FRESH, args, s) == "" + Session(OPEN, args, s[1..]);
  }

  /** A format is read piece by piece: text without a % prints as it is, a directive prints
      what it prints alone, and takes one argument if it is one that does. */
  lemma {:induction false} FormatIsPieces(lit: string, mods: string, conv: char, rest: string, args: seq<Arg>)
    requires '%' !in lit && IsDirective(mods, conv)
    ensures Output(lit + Percent(mods, conv) + rest, args)
         == lit + Output(Percent(mods, conv), args) + Output(rest, if Consumes(conv) then Rest(args) else args)
    decreases lit
  {
    var s := lit + Percent(mods, conv) + rest;
    DirectiveThen(mods, conv, args, rest);
    if lit == "" {
      assert s == Percent(mods, conv) + rest;
    } else {
      assert s[1..] == lit[1..] + Percent(mods, conv) + rest;
      FormatIsPieces(lit[1..], mods, conv, rest, args);
      assert Session(FRESH, args, s) == [s[0]] + Session(FRESH, args, s[1..]);
      assert lit == [lit[0]] + lit[1..];
    }
  }

  lemma {:induction false} LiteralText(lit: string, args: seq<Arg>)
    requires '%' !in lit
    ensures Output(lit, args) == lit
    decreases lit
  {
    if lit != "" {
      LiteralText(lit[1..], args);
      assert Session(FRESH, args, lit) == [lit[0]] + Session(FRESH, args, lit[1..]);
    }
  }

  // ------------------------------------------------------------- the integer conversions

  predicate IsInteger(conv: char) { conv == 'd' || conv == 'u' || conv == 'o' || conv == 'x' || conv == 'p' }

  function BaseOf(conv: char): int { match conv case 'o' => 8 case 'x' => 16 case 'p' => 16 case _ => 10 }

  /** The width of the type fetched: only ll, or any even number of l's, makes it 64 bits. */
  ghost function WidthOf(mods: string, conv: char): int {
    var n := Count(mods, 'l');
    if n > 0 && n % 2 == 0 && conv != 'p' then 0x1_0000_0000_0000_0000 else 0x1_0000_0000
  }

  lemma {:induction false} LongerIs(n: nat)
    ensures Longer(LongSz, n) == (if n % 2 == 0 then LongSz else LLongSz)
    ensures Longer(LLongSz, n) == (if n % 2 == 0 then LLongSz else LongSz)
    ensures Longer(IntSz, n) == if n == 0 then IntSz else if n % 2 == 1 then LongSz else LLongSz
  {
    if n > 0 { LongerIs(n - 1); }
  }

  /** What goes before the digits: a sign, and the base where the alternate form is asked for. */
  ghost function PrefixOf(mods: string, conv: char, v: int): string {
    (if v < 0 then "-" else "") +
    (if '#' in mods || conv == 'p' then (if BaseOf(conv) == 16 then "0x" else if BaseOf(conv) == 8 then "0" else "")
     else "")
  }

  /** Every integer conversion prints the numeral, in its base, of the argument as a value of its
      type: signed for d and unsigned otherwise, 32 bits wide or 64; with the sign, the prefix
      of the alternate form, and the padding that the directive asks for. */
  lemma IntegerDirective(mods: string, conv: char, x: int) returns (v: int, num: string)
    requires AllModifiers(mods) && IsInteger(conv)
    ensures var w := WidthOf(mods, conv);
      (v - x) % w == 0 && if conv == 'd' then -w / 2 <= v < w / 2 else 0 <= v < w
    ensures IsNumeral(num, BaseOf(conv)) && Read(num, BaseOf(conv)) == if v < 0 then -v else v
    ensures Output(Percent(mods, conv), [IntArg(x)]) == PaddedText(mods, PrefixOf(mods, conv, v), num)
  {
    FetchedValue(mods, conv, x);
    v := Fetched(Modified(OPEN, mods), conv, x);
    num := Digits(if v < 0 then -v else v, BaseOf(conv));
    DigitsRead(if v < 0 then -v else v, BaseOf(conv));
    PrintsNumeral(mods, conv, x, v);
  }

  lemma PrintsNumeral(mods: string, conv: char, x: int, v: int)
    requires AllModifiers(mods) && IsInteger(conv) && v == Fetched(Modified(OPEN, mods), conv, x)
    ensures Output(Percent(mods, conv), [IntArg(x)])
         == PaddedText(mods, PrefixOf(mods, conv, v), Digits(if v < 0 then -v else v, BaseOf(conv)))
  {
    DirectiveThen(mods, conv, [IntArg(x)], "");
    ModifiersMean(OPEN, mods);
    SendsInteger(Modified(OPEN, mods), conv, [IntArg(x)]);
    PrefixIs(mods, conv, v);
    PadIs(mods, PrefixOf(mods, conv, v), Digits(if v < 0 then -v else v, BaseOf(conv)));
  }

  lemma SendsInteger(f: Field, conv: char, args: seq<Arg>)
    requires f.inPct && IsInteger(conv)
    ensures var v := Fetched(f, conv, NextInt(args));
      Send(f, args, conv).2 == Pad(f, Prefix(f, conv, v), Digits(if v < 0 then -v else v, Base(conv)))
  {
  }

  lemma PrefixIs(mods: string, conv: char, v: int)
    requires AllModifiers(mods) && IsInteger(conv)
    ensures Prefix(Modified(OPEN, mods), conv, v) == PrefixOf(mods, conv, v) && Base(conv) == BaseOf(conv)
  {
    ModifiersMean(OPEN, mods);
  }

  lemma FetchedValue(mods: string, conv: char, x: int)
    requires AllModifiers(mods) && IsInteger(conv)
    ensures var w, v := WidthOf(mods, conv), Fetched(Modified(OPEN, mods), conv, x);
      (v - x) % w == 0 && if conv == 'd' then -w / 2 <= v < w / 2 else 0 <= v < w
  {
    var size := Modified(OPEN, mods).size;
    WidthIs(mods, conv);
    if conv == 'd' { SignedIs(x, size); } else { UnsignedIs(x, if conv == 'p' then LongSz else size); }
  }

  lemma WidthIs(mods: string, conv: char)
    requires AllModifiers(mods)
    ensures WidthOf(mods, conv) == Bits(if conv == 'p' then LongSz else Modified(OPEN, mods).size)
  {
    ModifiersMean(OPEN, mods);
    LongerIs(Count(mods, 'l'));
  }

  lemma SignedIs(x: int, size: Size)
    ensures var w := Bits(size); (Signed(x, size) - x) % w == 0 && -w / 2 <= Signed(x, size) < w / 2
  {
  }

  lemma UnsignedIs(x: int, size: Size)
    ensures var w := Bits(size); (Unsigned(x, size) - x) % w == 0 && 0 <= Unsigned(x, size) < w
  {
  }

  /** In particular an argument that fits its type prints as itself. */
  lemma FittingArgument(mods: string, conv: char, x: int) returns (num: string)
    requires AllModifiers(mods) && IsInteger(conv)
    requires var w := WidthOf(mods, conv); if conv == 'd' then -w / 2 <= x < w / 2 else 0 <= x < w
    ensures IsNumeral(num, BaseOf(conv)) && Read(num, BaseOf(conv)) == if x < 0 then -x else x
    ensures Output(Percent(mods, conv), [IntArg(x)]) == PaddedText(mods, PrefixOf(mods, conv, x), num)
  {
    var v;
    v, num := IntegerDirective(mods, conv, x);
    SameValue(v, x, WidthOf(mods, conv), conv == 'd');
  }

  lemma SameValue(v: int, x: int, w: int, signed: bool)
    requires w == 0x1_0000_0000 || w == 0x1_0000_0000_0000_0000
    requires (v - x) % w == 0
    requires if signed then -w / 2 <= v < w / 2 && -w / 2 <= x < w / 2 else 0 <= v < w && 0 <= x < w
    ensures v == x
  {
    assert -w < v - x < w;
  }

  // ------------------------------------------------------------------ the other conversions

  /** %s prints its string, or what stands for a null pointer. */
  lemma StringDirective(mods: string, s: string)
    requires AllModifiers(mods)
    ensures Output(Percent(mods, 's'), [StrArg(s)]) == PaddedText(mods, "", s)
    ensures Output(Percent(mods, 's'), [NullArg]) == PaddedText(mods, "", "(null)")
  {
    DirectiveThen(mods, 's', [StrArg(s)], "");
    DirectiveThen(mods, 's', [NullArg], "");
    ModifiersMean(OPEN, mods);
    PadIs(mods, "", s);
    PadIs(mods, "", "(null)");
  }

  /** %c prints its character, and nothing but padding for a NUL. */
  lemma CharDirective(mods: string, x: int)
    requires AllModifiers(mods) && 0 <= x < 256
    ensures Output(Percent(mods, 'c'), [IntArg(x)]) == PaddedText(mods, "", if x == 0 then "" else [x as char])
  {
    DirectiveThen(mods, 'c', [IntArg(x)], "");
    ModifiersMean(OPEN, mods);
    PadIs(mods, "", if x == 0 then "" else [x as char]);
  }

  /** Any other character after a % prints as itself, %% among them, and takes no argument. */
  lemma OtherDirective(mods: string, conv: char, args: seq<Arg>)
    requires IsDirective(mods, conv) && !Consumes(conv)
    ensures Output(Percent(mods, conv), args) == PaddedText(mods, "", [conv])
  {
    DirectiveThen(mods, conv, args, "");
    ModifiersMean(OPEN, mods);
    PadIs(mods, "", [conv]);
  }

  // -------------------------------------------------------------------------------- atoi

  lemma {:induction false} ReadsDecimal(s: string)
    requires AllDigits(s)
    ensures Decimal(s) == Read(s, 10)
  {
    if s != "" { ReadsDecimal(s[..|s| - 1]); }
  }

  lemma {:induction false} SkipsBlanks(blanks: string, t: string)
    requires (forall i :: 0 <= i < |blanks| ==> blanks[i] == ' ' || blanks[i] == '\t')
    requires t == "" || (t[0] != ' ' && t[0] != '\t')
    ensures BlankRun(blanks + t) == |blanks|
  {
    if blanks == "" {
      assert blanks + t == t;
    } else {
      assert (blanks + t)[1..] == blanks[1..] + t;
      SkipsBlanks(blanks[1..], t);
    }
  }

  ghost predicate IsDecimal(s: string) { forall i :: 0 <= i < |s| ==> '0' <= s[i] <= '9' }

  ghost predicate EndsNumber(s: string) { s == "" || !('0' <= s[0] <= '9') }

  /** What comes after the blanks, and what after a sign. */
  ghost predicate Numeric(sign: string, digits: string, rest: string) {
    && (sign == "" || sign == "-" || sign == "+") && IsDecimal(digits) && EndsNumber(rest)
    && (sign + digits == "" ==> rest == "" || (rest[0] != ' ' && rest[0] != '\t' && rest[0] != '-' && rest[0] != '+'))
  }

  lemma NoBlank(sign: string, digits: string, rest: string)
    requires Numeric(sign, digits, rest)
    ensures var t := sign + digits + rest; t == "" || (t[0] != ' ' && t[0] != '\t')
    ensures sign == "" ==> digits + rest == "" || ((digits + rest)[0] != '-' && (digits + rest)[0] != '+')
  {
    var t := sign + digits + rest;
    if sign != "" {
      assert t[0] == sign[0];
    } else if digits != "" {
      assert t[0] == digits[0] == (digits + rest)[0];
    } else {
      assert t == rest == digits + rest;
    }
  }

  /** What atoi makes of blanks, an optional sign, digits and anything after them: the number
      the digits write down, negative after a minus, as an int. */
  lemma AtoiReads(blanks: string, sign: string, digits: string, rest: string)
    requires (forall i :: 0 <= i < |blanks| ==> blanks[i] == ' ' || blanks[i] == '\t')
    requires Numeric(sign, digits, rest)
    ensures var r, n := Parse(blanks + sign + digits + rest), Read(digits, 10);
      -0x8000_0000 <= r < 0x8000_0000 && (r - if sign == "-" then -n else n) % 0x1_0000_0000 == 0
  {
    AtoiValue(blanks, sign, digits, rest);
    Wraps(sign == "-", Read(digits, 10));
  }

  lemma AtoiValue(blanks: string, sign: string, digits: string, rest: string)
    requires (forall i :: 0 <= i < |blanks| ==> blanks[i] == ' ' || blanks[i] == '\t')
    requires Numeric(sign, digits, rest)
    ensures Parse(blanks + sign + digits + rest) == WithSign(sign == "-", Read(digits, 10))
  {
    var t := sign + digits + rest;
    assert blanks + sign + digits + rest == blanks + t;
    NoBlank(sign, digits, rest);
    AfterBlanks(blanks, t);
    SignThenDigits(sign, digits, rest);
    DigitsThenRest(digits, rest);
  }

  lemma AfterBlanks(blanks: string, t: string)
    requires (forall i :: 0 <= i < |blanks| ==> blanks[i] == ' ' || blanks[i] == '\t')
    requires t == "" || (t[0] != ' ' && t[0] != '\t')
    ensures Parse(blanks + t) == ParseSigned(t)
  {
    SkipsBlanks(blanks, t);
    assert (blanks + t)[|blanks|..] == t;
  }

  lemma DigitsThenRest(digits: string, rest: string)
    requires IsDecimal(digits) && EndsNumber(rest)
    ensures ParseDigits(digits + rest) == Read(digits, 10)
  {
    RunOfDigits(digits, rest);
    assert (digits + rest)[..|digits|] == digits;
    ReadsDecimal(digits);
  }

  lemma SignThenDigits(sign: string, digits: string, rest: string)
    requires sign == "" || sign == "-" || sign == "+"
    requires sign == "" ==> digits + rest == "" || ((digits + rest)[0] != '-' && (digits + rest)[0] != '+')
    ensures ParseSigned(sign + digits + rest) == WithSign(sign == "-", ParseDigits(digits + rest))
  {
    var t := sign + digits + rest;
    if sign == "" {
      assert t == digits + rest;
    } else {
      assert t[0] == sign[0] && t[1..] == digits + rest;
    }
  }

  lemma Wraps(neg: bool, n: int)
    ensures var r := WithSign(neg, n);
      -0x8000_0000 <= r < 0x8000_0000 && (r - if neg then -n else n) % 0x1_0000_0000 == 0
  {
  }
}
