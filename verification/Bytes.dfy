/** Bytes, the 32-bit words stored in them (most significant byte first, as on MIPS),
    and overwriting part of a buffer. */
module Bytes {

  type byte = x: int | 0 <= x < 256

  const WORD := 0x1_0000_0000

  function Zeros(n: nat): seq<byte> { seq(n, _ => 0) }

  function Join(a: int, b: int, c: int, d: int): int { a * 0x100_0000 + b * 0x1_0000 + c * 0x100 + d }

  function WordAt(b: seq<byte>, i: nat): (w: nat)
    requires 4 * i + 4 <= |b|
    ensures w < WORD
  {
    Join(b[4 * i], b[4 * i + 1], b[4 * i + 2], b[4 * i + 3])
  }

  function WordBytes(w: nat): (b: seq<byte>)
    requires w < WORD
    ensures |b| == 4
  {
    [w / 0x100_0000, w / 0x1_0000 % 0x100, w / 0x100 % 0x100, w % 0x100]
  }

  lemma WordRoundTrip(w: nat)
    requires w < WORD
    ensures WordAt(WordBytes(w), 0) == w
  {
    var a := w / 0x100;
    var b := a / 0x100;
    assert w / 0x1_0000 == b && b / 0x100 == w / 0x100_0000;
  }

  function Encode(ws: seq<nat>): (b: seq<byte>)
    requires forall i :: 0 <= i < |ws| ==> ws[i] < WORD
    ensures |b| == 4 * |ws|
  {
    if ws == [] then [] else WordBytes(ws[0]) + Encode(ws[1..])
  }

  lemma SameWord(b: seq<byte>, i: nat, c: seq<byte>, j: nat)
    requires 4 * i + 4 <= |b| && 4 * j + 4 <= |c|
    requires b[4 * i] == c[4 * j] && b[4 * i + 1] == c[4 * j + 1] && b[4 * i + 2] == c[4 * j + 2]
    requires b[4 * i + 3] == c[4 * j + 3]
    ensures WordAt(b, i) == WordAt(c, j)
  {
  }

  /** Words written to a buffer read back the same. */
  lemma {:induction false} EncodeAt(ws: seq<nat>, i: nat)
    requires (forall j :: 0 <= j < |ws| ==> ws[j] < WORD) && i < |ws|
    ensures WordAt(Encode(ws), i) == ws[i]
  {
    var b, rest := Encode(ws), Encode(ws[1..]);
    if i == 0 {
      WordRoundTrip(ws[0]);
      SameWord(b, 0, WordBytes(ws[0]), 0);
    } else {
      EncodeAt(ws[1..], i - 1);
      SameWord(b, i, rest, i - 1);
    }
  }

  /** b with p written over it from `at` on. */
  function Patch(b: seq<byte>, at: nat, p: seq<byte>): (r: seq<byte>)
    requires at + |p| <= |b|
    ensures |r| == |b|
    ensures forall i :: 0 <= i < |b| ==> r[i] == if at <= i < at + |p| then p[i - at] else b[i]
  {
    b[..at] + p + b[at + |p|..]
  }

  function SetWord(b: seq<byte>, i: nat, w: nat): (r: seq<byte>)
    requires 4 * i + 4 <= |b| && w < WORD
    ensures |r| == |b|
  {
    Patch(b, 4 * i, WordBytes(w))
  }

  lemma SetWordAt(b: seq<byte>, i: nat, w: nat, j: nat)
    requires 4 * i + 4 <= |b| && 4 * j + 4 <= |b| && w < WORD
    ensures WordAt(SetWord(b, i, w), j) == if i == j then w else WordAt(b, j)
  {
    var r := SetWord(b, i, w);
    if i == j {
      WordRoundTrip(w);
      SameWord(r, i, WordBytes(w), 0);
    } else {
      SameWord(r, j, b, j);
    }
  }

  lemma ZeroWord(n: nat, i: nat)
    requires 4 * i + 4 <= n
    ensures WordAt(Zeros(n), i) == 0
  {
  }
}
