/** atoi: blanks, a sign, and the longest run of digits, accumulated modulo 2^32. */
module Atoi {

  const M: int := 0x1_0000_0000
  const NUL: char := '\0'

  predicate IsBlank(c: char) { c == ' ' || c == '\t' }
  predicate IsDigit(c: char) { '0' <= c <= '9' }

  function DigitOf(c: char): int
    requires IsDigit(c)
  {
    (c - '0') as int
  }

  /** An unsigned int returned as an int. */
  function ToInt(x: int): (r: int)
    ensures -M / 2 <= r < M / 2
  {
    if x % M < M / 2 then x % M else x % M - M
  }

  ghost predicate AllDigits(s: string) { forall i :: 0 <= i < |s| ==> IsDigit(s[i]) }

  /** The number a digit string writes down, without any bound. */
  ghost function Decimal(s: string): (v: int)
    requires AllDigits(s)
    ensures v >= 0
  {
    if s == "" then 0 else Decimal(s[..|s| - 1]) * 10 + DigitOf(s[|s| - 1])
  }

  ghost function BlankRun(s: string): (k: nat)
    ensures k <= |s|
  {
    if s != "" && IsBlank(s[0]) then 1 + BlankRun(s[1..]) else 0
  }

  ghost function DigitRun(s: string): (k: nat)
    ensures k <= |s| && AllDigits(s[..k])
  {
    if s != "" && IsDigit(s[0]) then
      assert s[..1 + DigitRun(s[1..])] == [s[0]] + s[1..][..DigitRun(s[1..])];
      1 + DigitRun(s[1..])
    else 0
  }

  /** The number a string stands for: trailing text is ignored, a value too
      large for an int wraps. */
  ghost function Parse(s: string): int { ParseSigned(s[BlankRun(s)..]) }

  ghost function ParseSigned(t: string): int {
    if t != "" && t[0] == '-' then WithSign(true, ParseDigits(t[1..]))
    else if t != "" && t[0] == '+' then WithSign(false, ParseDigits(t[1..]))
    else WithSign(false, ParseDigits(t))
  }

  /** What atoi returns for a sign and the unsigned value it accumulated. */
  function WithSign(neg: bool, v: int): int { ToInt(if neg then -v else v) }

  ghost function ParseDigits(s: string): int { Decimal(s[..DigitRun(s)]) }

  // ----------------------------------------------------------------- the loops

  /** A C string in memory. */
  ghost predicate IsCString(s: array<char>, text: string)
    reads s
  {
    |text| < s.Length && s[..|text|] == text && s[|text|] == NUL && NUL !in text
  }

  method SkipBlanks(s: array<char>, ghost text: string) returns (i: nat)
    requires IsCString(s, text)
    ensures i == BlankRun(text)
  {
    i := 0;
    while s[i] == ' ' || s[i] == '\t'
      invariant 0 <= i <= |text| && i + BlankRun(text[i..]) == BlankRun(text)
      decreases |text| - i
    {
      assert s[i] == text[i];
      assert text[i..][1..] == text[i + 1..];
      i := i + 1;
    }
    assert i < |text| ==> s[i] == text[i];
  }

  method ReadDigits(s: array<char>, start: nat, ghost text: string) returns (val: int)
    requires IsCString(s, text) && start <= |text|
    ensures val == ParseDigits(text[start..]) % M
  {
    val := 0;
    var i := start;
    ghost var t := text[start..];
    while s[i] != NUL
      invariant start <= i <= |text|
      invariant AllDigits(t[..i - start]) && i - start + DigitRun(text[i..]) == DigitRun(t)
      invariant 0 <= val < M && val == Decimal(t[..i - start]) % M
      decreases |text| - i
    {
      assert s[i] == text[i] == t[i - start];
      if !IsDigit(s[i]) {
        break;
      }
      var digit := DigitOf(s[i]);
      assert text[i..][1..] == text[i + 1..];
      assert t[..i - start + 1][..i - start] == t[..i - start];
      WrapAccumulate(Decimal(t[..i - start]), digit);
      val := (val * 10 + digit) % M;
      i := i + 1;
    }
    assert i < |text| ==> s[i] == text[i] != NUL;
    assert DigitRun(text[i..]) == 0;
  }

  lemma WrapAccumulate(v: int, d: int)
    ensures (v % M * 10 + d) % M == (v * 10 + d) % M
  {
  }

  lemma MultipleVanishes(x: int, k: int)
    ensures (x + k * M) % M == x % M
  {
  }

  lemma WrapNegate(v: int)
    ensures WithSign(true, v % M) == WithSign(true, v) && WithSign(false, v % M) == WithSign(false, v)
  {
    MultipleVanishes(-(v % M), -(v / M));
    assert -(v % M) + -(v / M) * M == -v;
  }

  method Atoi(s: array<char>, ghost text: string) returns (r: int)
    requires IsCString(s, text)
    ensures r == Parse(text)
  {
    var i := SkipBlanks(s, text);
    assert i < |text| ==> s[i] == text[i];
    ghost var t := text[i..];
    var neg := false;
    if s[i] == '-' {
      neg := true;
      i := i + 1;
    } else if s[i] == '+' {
      i := i + 1;
    }
    assert t != "" ==> t[1..] == text[BlankRun(text) + 1..];
    var val := ReadDigits(s, i, text);
    WrapNegate(ParseDigits(text[i..]));
    r := WithSign(neg, val);
  }
}
