/** The printf guts and snprintf, as they run: a state record updated per format
    character, a digit buffer filled from the right, and a caller's buffer that
    stops taking characters when it is full. */
module Printf {
  import opened Arithmetic
  import opened Format

  const NUL: char := '\0'

  function Min(a: nat, b: nat): nat { if a < b then a else b }

  /** snprintf's context structure. */
  class Snp {
    const buf: array<char>
    const buflen: nat          // characters that may be stored, without the NUL
    var bufpos: nat
    ghost var sent: string     // everything handed to Send so far
    ghost const was: string    // the buffer as the caller passed it

    ghost predicate Valid()
      reads this, buf
    {
      && buflen <= buf.Length == |was|
      && bufpos == Min(|sent|, buflen)
      && buf[..bufpos] == sent[..bufpos]
      && buf[bufpos..] == was[bufpos..]
    }

    constructor (buf: array<char>, len: nat)
      requires len <= buf.Length
      ensures Valid() && sent == "" && this.buf == buf && was == buf[..]
      ensures buflen == if len == 0 then 0 else len - 1
    {
      this.buf := buf;
      buflen := if len == 0 then 0 else len - 1;
      bufpos := 0;
      sent := "";
      was := buf[..];
    }

    /** __snprintf_send. */
    method Send(data: string)
      requires Valid()
      modifies this, buf
      ensures Valid() && sent == old(sent) + data
    {
      ghost var before := sent;
      var i := 0;
      while i < |data|
        invariant 0 <= i <= |data| && Valid() && sent == before + data[..i]
      {
        if bufpos < buflen {
          buf[bufpos] := data[i];
          bufpos := bufpos + 1;
        }
        sent := sent + [data[i]];
        i := i + 1;
      }
    }
  }

  const NUMBER_BUF_SIZE := 23      // 64 / 3 + 2

  /** struct PF. */
  class Pf {
    const snp: Snp
    var args: seq<Arg>
    var charcount: nat
    var field: Field
    // filled in while one integer field is printed
    var num: int
    var sign: bool
    var base: int
    var baseprefix: bool

    constructor (snp: Snp, args: seq<Arg>)
      ensures this.snp == snp && this.args == args && field == FRESH && charcount == 0
      ensures num == 0 && !sign && !baseprefix
    {
      this.snp := snp;
      this.args := args;
      charcount := 0;
      field := FRESH;
      num, sign, base, baseprefix := 0, false, 0, false;
    }

    ghost predicate Valid()
      reads this, snp, snp.buf
    {
      snp.Valid() && charcount == |snp.sent|
    }

    /** Between format characters nothing of the last integer field is left. */
    ghost predicate Ready()
      reads this, snp, snp.buf
    {
      Valid() && num == 0 && !sign && !baseprefix
    }

    /** __pf_print. */
    method Print(txt: string)
      requires Valid()
      modifies this`charcount, snp, snp.buf
      ensures Valid() && snp.sent == old(snp.sent) + txt
    {
      snp.Send(txt);
      charcount := charcount + |txt|;
    }

    /** __pf_endfield. */
    method EndField()
      requires Valid()
      modifies this`field, this`num, this`sign, this`base, this`baseprefix
      ensures Ready() && field == FRESH
    {
      field := FRESH;
      num, sign, base, baseprefix := 0, false, 0, false;
    }

    /** __pf_fill. */
    method FillOut(spc: nat)
      requires Valid()
      modifies this`charcount, snp, snp.buf
      ensures Valid() && snp.sent == old(snp.sent) + Fill(field.fillchar, spc)
    {
      ghost var before := snp.sent;
      var i := 0;
      while i < spc
        invariant 0 <= i <= spc && Valid() && snp.sent == before + Fill(field.fillchar, i)
      {
        Print([field.fillchar]);
        assert Fill(field.fillchar, i + 1) == Fill(field.fillchar, i) + [field.fillchar];
        i := i + 1;
      }
    }

    /** __pf_printstuff. */
    method PrintStuff(prefix: string, prefix2: string, stuff: string)
      requires Valid()
      modifies this`charcount, snp, snp.buf
      ensures Valid() && snp.sent == old(snp.sent) + Pad(field, prefix + prefix2, stuff)
    {
      ghost var before := snp.sent;
      var len := |prefix| + |prefix2| + |stuff|;
      var spc := if field.spacing > len then field.spacing - len else 0;
      ghost var fill := Fill(field.fillchar, spc);
      if spc > 0 && !field.rightspc && field.fillchar != '0' {
        FillOut(spc);
      }
      ghost var left := snp.sent;
      Print(prefix);
      Print(prefix2);
      if spc > 0 && !field.rightspc && field.fillchar == '0' {
        FillOut(spc);
      }
      ghost var middle := snp.sent;
      Print(stuff);
      if spc > 0 && field.rightspc {
        FillOut(spc);
      }
      Together(before, left, middle, snp.sent, field, prefix, prefix2, stuff);
    }

    /** __pf_modifier. */
    method Modifier(ch: char)
      requires Valid() && IsModifier(ch)
      modifies this`field
      ensures Valid() && field == Modify(old(field), ch)
    {
      if ch == '#' {
        field := field.(altformat := true);
      } else if ch == '-' {
        field := field.(rightspc := true);
      } else if ch == 'l' {
        field := field.(size := if field.size == LongSz then LLongSz else LongSz);
      } else if ch == '0' {
        if field.spacing > 0 {
          field := field.(spacing := field.spacing * 10);
        } else {
          field := field.(fillchar := '0');
        }
      } else {
        field := field.(spacing := field.spacing * 10 + (ch - '0') as nat);
      }
    }

    /** va_arg for an unsigned type of that width. */
    static function AsUnsigned(x: int, w: int): (r: int)
      requires w > 0
      ensures 0 <= r < w && r % w == x % w
    {
      x % w
    }

    /** And for a signed one. */
    static function AsSigned(x: int, w: int): (r: int)
      requires w == 0x1_0000_0000 || w == 0x1_0000_0000_0000_0000
      ensures -w / 2 <= r < w / 2 && r % w == x % w
    {
      if x % w < w / 2 then x % w else x % w - w
    }

    /** The signed integer types. */
    method SignedArg(arg: int) returns (signednum: int)
      ensures Represents(signednum, field, 'd', arg)
      ensures -0x8000_0000_0000_0000 <= signednum < 0x8000_0000_0000_0000
    {
      match field.size {
        case IntSz => signednum := AsSigned(arg, 0x1_0000_0000);
        case LongSz => signednum := AsSigned(arg, 0x1_0000_0000);
        case LLongSz => signednum := AsSigned(arg, 0x1_0000_0000_0000_0000);
      }
    }

    /** And the unsigned ones, a pointer being a long. */
    method UnsignedArg(ch: char, arg: int) returns (n: int)
      requires ch != 'd'
      ensures Represents(n, field, ch, arg) && 0 <= n < 0x1_0000_0000_0000_0000
    {
      match if ch == 'p' then LongSz else field.size {
        case IntSz => n := AsUnsigned(arg, 0x1_0000_0000);
        case LongSz => n := AsUnsigned(arg, 0x1_0000_0000);
        case LLongSz => n := AsUnsigned(arg, 0x1_0000_0000_0000_0000);
      }
    }

    /** The negation of a negative number, stored in an unsigned long long. */
    method Negation(signednum: int) returns (n: int)
      requires -0x8000_0000_0000_0000 <= signednum < 0
      ensures n == -signednum
    {
      n := AsUnsigned(-signednum, 0x1_0000_0000_0000_0000);
    }

    /** __pf_getnum: the next argument as size and sign. */
    method GetNum(ch: char)
      requires Valid() && !sign
      modifies this`args, this`num, this`sign
      ensures Valid() && args == Rest(old(args)) && 0 <= num < 0x1_0000_0000_0000_0000 && (sign ==> num > 0)
      ensures Represents(if sign then -num else num, field, ch, NextInt(old(args)))
    {
      var arg := NextInt(args);
      args := Rest(args);
      if ch == 'd' {
        var signednum := SignedArg(arg);
        if signednum < 0 {
          sign := true;
          num := Negation(signednum);
        } else {
          num := signednum;
        }
      } else {
        num := UnsignedArg(ch, arg);
      }
    }

    /** __pf_setbase. */
    method SetBase(ch: char)
      requires Valid() && IsIntegerType(ch) && !baseprefix
      modifies this`base, this`baseprefix
      ensures Valid() && base == Base(ch) && baseprefix == (field.altformat || ch == 'p')
    {
      if ch == 'd' || ch == 'u' {
        base := 10;
      } else if ch == 'x' || ch == 'p' {
        base := 16;
      } else {
        base := 8;
      }
      if field.altformat || ch == 'p' {
        baseprefix := true;
      }
    }

    /** One round of the loop below: the last digit goes into the buffer in front of the
        digits already there. */
    static method PutDigit(buf: array<char>, x: nat, xnum: int, base: int, ghost whole: string) returns (rest: int)
      requires x <= 21 < buf.Length && 0 <= xnum < Pow8(x + 1) && 8 <= base <= 16
      requires whole == Digits(xnum, base) + buf[x + 1..22]
      modifies buf
      ensures 0 <= rest < Pow8(x) && (rest == 0 || rest < xnum)
      ensures whole == (if rest == 0 then "" else Digits(rest, base)) + buf[x..22]
    {
      DropDigit(xnum, base, x + 1);
      SmallerQuotient(xnum, base);
      ghost var tail := buf[x + 1..22];
      var digit := DigitChar(xnum % base);
      rest := xnum / base;
      ghost var front := if rest == 0 then "" else Digits(rest, base);
      assert Digits(xnum, base) == front + [digit];
      buf[x] := digit;
      assert buf[x..22] == [digit] + tail;
      assert (front + [digit]) + tail == front + ([digit] + tail);
    }

    /** The do-while loop of __pf_printnum: digits go into the buffer from the
        right, and the longest 64-bit number in base 8 still fits. */
    method Convert() returns (text: string)
      requires 0 <= num < 0x1_0000_0000_0000_0000 && 8 <= base <= 16
      ensures text == Digits(num, base)
    {
      var buf := new char[NUMBER_BUF_SIZE];
      var x := NUMBER_BUF_SIZE - 1;
      buf[x] := NUL;
      x := x - 1;
      var xnum := num;
      ghost var whole := Digits(num, base);
      Pow8Values();
      assert whole == whole + buf[x + 1..22];
      while true
        invariant 0 <= x <= 21 && 0 <= xnum < Pow8(x + 1)
        invariant whole == Digits(xnum, base) + buf[x + 1..22]
        decreases xnum
      {
        var rest := PutDigit(buf, x, xnum, base, whole);
        x := x - 1;
        xnum := rest;
        if xnum == 0 {
          break;
        }
      }
      x := x + 1;
      text := buf[x..22];
    }

    /** __pf_printnum. */
    method PrintNum()
      requires Valid() && 0 <= num < 0x1_0000_0000_0000_0000 && 8 <= base <= 16
      modifies this`charcount, snp, snp.buf
      ensures Valid()
      ensures snp.sent == old(snp.sent) + Pad(field,
                (if sign then "-" else "") +
                (if baseprefix && base == 16 then "0x" else if baseprefix && base == 8 then "0" else ""),
                Digits(num, base))
    {
      var x := Convert();
      var bprefix := "";
      if baseprefix && base == 16 {
        bprefix := "0x";
      } else if baseprefix && base == 8 {
        bprefix := "0";
      }
      var sprefix := if sign then "-" else "";
      PrintStuff(sprefix, bprefix, x);
    }

    /** The integer conversions of __pf_send. */
    method SendInteger(ch: char)
      requires Ready() && IsIntegerType(ch)
      modifies this, snp, snp.buf
      ensures Ready() && field == FRESH && args == Rest(old(args))
      ensures snp.sent == old(snp.sent) + IntegerText(old(field), ch, NextInt(old(args)))
    {
      GetNum(ch);
      FetchedIs(if sign then -num else num, field, ch, NextInt(old(args)));
      SetBase(ch);
      PrintNum();
      EndField();
    }

    /** __pf_send. */
    method SendChar(ch: char)
      requires Ready()
      modifies this, snp, snp.buf
      ensures Ready()
      ensures var (field', args', out) := Format.Send(old(field), old(args), ch);
              field == field' && args == args' && snp.sent == old(snp.sent) + out
    {
      if !field.inPct && ch != '%' {
        Print([ch]);
      } else if !field.inPct {
        field := field.(inPct := true);
      } else if IsModifier(ch) {
        Modifier(ch);
      } else if IsIntegerType(ch) {
        SendInteger(ch);
      } else if ch == 's' {
        var str := NextStr(args);
        args := Rest(args);
        PrintStuff("", "", str);
        EndField();
      } else {
        var x := [ch];
        if ch == 'c' {
          x := CString(NextInt(args));
          args := Rest(args);
        }
        PrintStuff("", "", x);
        EndField();
      }
      assert "" + "" == "";
    }
  }

  /** Padding printed in at most one of the three places adds up to Pad. */
  lemma Together(before: string, left: string, middle: string, after: string, f: Field, p1: string, p2: string,
      stuff: string)
    requires var len := |p1| + |p2| + |stuff|;
             var fill := Fill(f.fillchar, if f.spacing > len then f.spacing - len else 0);
             && left == before + (if !f.rightspc && f.fillchar != '0' then fill else "")
             && middle == left + p1 + p2 + (if !f.rightspc && f.fillchar == '0' then fill else "")
             && after == middle + stuff + (if f.rightspc then fill else "")
    ensures after == before + Pad(f, p1 + p2, stuff)
  {
  }

  ghost function Pow8(k: nat): (p: int)
    ensures p >= 1
  {
    if k == 0 then 1 else 8 * Pow8(k - 1)
  }

  lemma {:induction false} Pow8Values()
    ensures Pow8(22) >= 0x1_0000_0000_0000_0000
  {
    assert Pow8(4) == 4096;
    Pow8Add(4, 4);
    Pow8Add(8, 8);
    Pow8Add(16, 4);
    Pow8Add(20, 2);
    assert Pow8(2) == 64;
  }

  lemma {:induction false} Pow8Add(a: nat, b: nat)
    ensures Pow8(a + b) == Pow8(a) * Pow8(b)
  {
    if a != 0 {
      Pow8Add(a - 1, b);
      assert 8 * (Pow8(a - 1) * Pow8(b)) == (8 * Pow8(a - 1)) * Pow8(b);
    }
  }

  /** The room a number needs once its last digit is off. */
  lemma DropDigit(n: int, base: int, room: nat)
    requires 0 <= n < Pow8(room) && 8 <= base <= 16 && room >= 1
    ensures 0 <= n / base < Pow8(room - 1)
  {
    var p := Pow8(room - 1);
    MulMono(8, base, p);
    assert p * base == base * p;
    QuotientBelow(p, n, base);
  }

  lemma SmallerQuotient(n: int, base: int)
    requires n >= 0 && base >= 2
    ensures n < base ==> n / base == 0 && n % base == n
    ensures n >= base ==> 0 < n / base < n
  {
    var q := n / base;
    QuotientTimes(n, base);
    if q >= 1 {
      MulMono(2, base, q);
      assert q * base == base * q;
      assert base * q >= 2 * q;
    }
    if n < base {
      assert q == 0;
    }
  }

  // ----------------------------------------------------------------- sessions

  lemma SessionStep(done: string, f: Field, args: seq<Arg>, format: string, i: nat)
    requires i < |format|
    ensures var (f', args', out) := Format.Send(f, args, format[i]);
            done + Session(f, args, format[i..]) == (done + out) + Session(f', args', format[i + 1..])
  {
    assert format[i..][1..] == format[i + 1..];
  }

  /** __vprintf: the format is sent one character at a time. */
  method VPrintf(snp: Snp, format: string, args: seq<Arg>) returns (chars: nat)
    requires snp.Valid() && snp.sent == ""
    modifies snp, snp.buf
    ensures snp.Valid() && snp.sent == Output(format, args) && chars == |snp.sent|
  {
    var pf := new Pf(snp, args);
    assert format[0..] == format;
    var i := 0;
    while i < |format|
      invariant 0 <= i <= |format| && pf.Ready() && pf.snp == snp && fresh(pf)
      invariant snp.sent + Session(pf.field, pf.args, format[i..]) == Output(format, args)
    {
      SessionStep(snp.sent, pf.field, pf.args, format, i);
      pf.SendChar(format[i]);
      i := i + 1;
    }
    chars := pf.charcount;
  }

  /** vsnprintf, as section 7.19.6.5 of ISO C99 asks: the first len - 1 characters
      and a NUL are stored, nothing else is touched, and the length of the whole
      output is returned. */
  method VSnprintf(buf: array<char>, len: nat, fmt: string, args: seq<Arg>) returns (chars: nat)
    requires len <= buf.Length
    modifies buf
    ensures chars == |Output(fmt, args)|
    ensures len == 0 ==> buf[..] == old(buf[..])
    ensures len > 0 ==>
              var stored := Min(len - 1, chars);
              && buf[..stored] == Output(fmt, args)[..stored]
              && buf[stored] == NUL
              && buf[stored + 1..] == old(buf[stored + 1..])
  {
    ghost var was := buf[..];
    var snp := new Snp(buf, len);
    chars := VPrintf(snp, fmt, args);
    if len > 0 {
      buf[snp.bufpos] := NUL;
    }
  }
}
