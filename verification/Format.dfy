/** What a printf session prints, as a value: the state machine of __printf.c
    over the characters of the format, one field at a time. */
module Format {

  /** One variadic argument.  Fetching an argument of the other kind, or one
      past the end, is undefined in C; here it reads as 0 or as NULL. */
  datatype Arg = IntArg(v: int) | StrArg(s: string) | NullArg

  datatype Size = IntSz | LongSz | LLongSz

  /** The part of struct PF that lives from one format character to the next. */
  datatype Field = Field(inPct: bool, size: Size, spacing: nat, rightspc: bool, fillchar: char, altformat: bool)

  /** __pf_endfield. */
  const FRESH := Field(false, IntSz, 0, false, ' ', false)

  predicate IsModifier(ch: char) { ch == '#' || ch == '-' || ch == 'l' || '0' <= ch <= '9' }

  /** __pf_modifier. */
  function Modify(f: Field, ch: char): Field
    requires IsModifier(ch)
  {
    match ch
    case '#' => f.(altformat := true)
    case '-' => f.(rightspc := true)
    case 'l' => f.(size := if f.size == LongSz then LLongSz else LongSz)
    case '0' => if f.spacing > 0 then f.(spacing := f.spacing * 10) else f.(fillchar := '0')
    case _ => f.(spacing := f.spacing * 10 + (ch - '0') as nat)
  }

  // ------------------------------------------------------------------ numbers

  function Bits(size: Size): int { if size == LLongSz then 0x1_0000_0000_0000_0000 else 0x1_0000_0000 }

  function Unsigned(x: int, size: Size): (r: int)
    ensures 0 <= r < 0x1_0000_0000_0000_0000
  {
    x % Bits(size)
  }

  function Signed(x: int, size: Size): (r: int)
    ensures -0x8000_0000_0000_0000 <= r < 0x8000_0000_0000_0000
  {
    var u := Unsigned(x, size);
    if u < Bits(size) / 2 then u else u - Bits(size)
  }

  function NextInt(args: seq<Arg>): int {
    if args != [] && args[0].IntArg? then args[0].v else 0
  }

  function NextStr(args: seq<Arg>): string {
    if args != [] && args[0].StrArg? then args[0].s else "(null)"
  }

  function Rest(args: seq<Arg>): seq<Arg> { if args == [] then [] else args[1..] }

  function DigitChar(d: int): char
    requires 0 <= d < 16
  {
    "0123456789abcdef"[d]
  }

  /** A number written in a base, most significant digit first. */
  function Digits(n: int, base: int): (s: string)
    requires n >= 0 && 2 <= base <= 16
    ensures |s| > 0
    decreases n
  {
    if n < base then [DigitChar(n)] else Digits(n / base, base) + [DigitChar(n % base)]
  }

  function Fill(c: char, count: nat): (s: string)
    ensures |s| == count && forall i :: 0 <= i < count ==> s[i] == c
  {
    seq(count, i => c)
  }

  /** __pf_printstuff: prefixes go after space padding and before zero padding. */
  function Pad(f: Field, prefix: string, stuff: string): string {
    var len := |prefix| + |stuff|;
    var spc := if f.spacing > len then f.spacing - len else 0;
    if f.rightspc then prefix + stuff + Fill(f.fillchar, spc)
    else if f.fillchar == '0' then prefix + Fill('0', spc) + stuff
    else Fill(f.fillchar, spc) + prefix + stuff
  }

  function Base(ch: char): int {
    if ch == 'd' || ch == 'u' then 10 else if ch == 'o' then 8 else 16
  }

  predicate IsIntegerType(ch: char) { ch == 'd' || ch == 'o' || ch == 'u' || ch == 'p' || ch == 'x' }

  /** The value an integer conversion fetches, with its sign still on. */
  function Fetched(f: Field, ch: char, x: int): (r: int)
    ensures -0x8000_0000_0000_0000 <= r < 0x1_0000_0000_0000_0000
  {
    if ch == 'p' then Unsigned(x, LongSz)
    else if ch == 'd' then Signed(x, f.size)
    else Unsigned(x, f.size)
  }

  /** What one can say of a fetched value without saying how: it is the argument modulo the
      width of its type, and in that type's range. */
  predicate Represents(value: int, f: Field, ch: char, x: int) {
    if f.size == LLongSz && ch != 'p' then
      && value % 0x1_0000_0000_0000_0000 == x % 0x1_0000_0000_0000_0000
      && InRange(value, ch == 'd', 0x8000_0000_0000_0000)
    else
      && value % 0x1_0000_0000 == x % 0x1_0000_0000
      && InRange(value, ch == 'd', 0x8000_0000)
  }

  predicate InRange(value: int, signed: bool, half: int) {
    if signed then -half <= value < half else 0 <= value < 2 * half
  }

  lemma FetchedIs(value: int, f: Field, ch: char, x: int)
    requires Represents(value, f, ch, x)
    ensures value == Fetched(f, ch, x)
  {
  }

  function Prefix(f: Field, ch: char, value: int): string {
    (if value < 0 then "-" else "") +
    (if (f.altformat || ch == 'p') && Base(ch) == 16 then "0x"
     else if (f.altformat || ch == 'p') && Base(ch) == 8 then "0"
     else "")
  }

  /** What one integer field prints. */
  function IntegerText(f: Field, ch: char, x: int): string {
    var value := Fetched(f, ch, x);
    Pad(f, Prefix(f, ch, value), Digits(if value < 0 then -value else value, Base(ch)))
  }

  // ------------------------------------------------------------------ session

  /** __pf_send: the next state, the arguments left, and what is printed. */
  function Send(f: Field, args: seq<Arg>, ch: char): (Field, seq<Arg>, string) {
    if !f.inPct && ch != '%' then (f, args, [ch])
    else if !f.inPct then (f.(inPct := true), args, "")
    else if IsModifier(ch) then (Modify(f, ch), args, "")
    else if IsIntegerType(ch) then (FRESH, Rest(args), IntegerText(f, ch, NextInt(args)))
    else if ch == 's' then (FRESH, Rest(args), Pad(f, "", NextStr(args)))
    else if ch == 'c' then (FRESH, Rest(args), Pad(f, "", CString(NextInt(args))))
    else (FRESH, args, Pad(f, "", [ch]))
  }

  /** The one-character string %c makes; a NUL makes it empty. */
  function CString(x: int): string {
    var c := x % 256;
    if c == 0 then "" else [c as char]
  }

  /** All that a session prints. */
  function Session(f: Field, args: seq<Arg>, format: string): string
    decreases format
  {
    if format == "" then "" else
      var (f', args', out) := Send(f, args, format[0]);
      out + Session(f', args', format[1..])
  }

  function Output(format: string, args: seq<Arg>): string { Session(FRESH, args, format) }
}
