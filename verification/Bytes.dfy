/** Bytes, 32-bit words and the little-endian codec used by the wire frames and the shared ring. */
module Bytes {
  type Byte = x: int | 0 <= x < 0x100
  type Word = x: int | 0 <= x < 0x1_0000_0000
  type Int8 = x: int | -128 <= x < 128

  /** The four bytes of a word, least significant first. */
  function PutWord(w: Word): (s: seq<Byte>)
    ensures |s| == 4
  {
    [w % 0x100, w / 0x100 % 0x100, w / 0x1_0000 % 0x100, w / 0x100_0000]
  }

  function GetWord(s: seq<Byte>): Word
    requires |s| >= 4
  {
    var b0: int, b1: int, b2: int, b3: int := s[0], s[1], s[2], s[3];
    b0 + 0x100 * b1 + 0x1_0000 * b2 + 0x100_0000 * b3
  }

  /** The number that the four bytes at an offset write down, lowest byte first. */
  function WordAt(s: seq<Byte>, i: nat): int
    requires i + 4 <= |s|
  {
    s[i] as int + 0x100 * s[i + 1] as int + 0x1_0000 * s[i + 2] as int + 0x100_0000 * s[i + 3] as int
  }

  /** Byte order of both directions of the codec. */
  lemma WordBytes(w: Word)
    ensures WordAt(PutWord(w), 0) == w
  {
    var q1, q2: int := w / 0x100, w / 0x1_0000;
    assert q2 == q1 / 0x100 && w / 0x100_0000 == q2 / 0x100;
  }

  lemma WordRoundTrip(w: Word, rest: seq<Byte>)
    ensures GetWord(PutWord(w) + rest) == w
  {
    var s := PutWord(w) + rest;
    var q1, q2: int := w / 0x100, w / 0x1_0000;
    assert q2 == q1 / 0x100 && w / 0x100_0000 == q2 / 0x100;
    assert s[..4] == PutWord(w);
    assert w == w % 0x100 + 0x100 * (q1 % 0x100) + 0x1_0000 * (q2 % 0x100) + 0x100_0000 * (q2 / 0x100);
  }

  /** Two's complement view of a signed byte. */
  function PutInt8(i: Int8): Byte { if i < 0 then i + 0x100 else i }

  function GetInt8(b: Byte): Int8 { if b >= 0x80 then b - 0x100 else b }

  lemma WordRead(s: seq<Byte>, i: nat)
    requires i + 4 <= |s|
    ensures GetWord(s[i..]) == WordAt(s, i)
  {
  }

  /** A signed byte and its image are equal modulo 256, and the image determines it. */
  lemma Int8Bytes(i: Int8)
    ensures (PutInt8(i) - i) % 0x100 == 0 && GetInt8(PutInt8(i)) == i
  {
  }

  /** `mem` with `data` copied over it from `off` on: what memcpy does to a buffer. */
  function Splice(mem: seq<Byte>, off: nat, data: seq<Byte>): (m: seq<Byte>)
    requires off + |data| <= |mem|
    ensures |m| == |mem|
    ensures m[off..off + |data|] == data
    ensures forall i | 0 <= i < |mem| && !(off <= i < off + |data|) :: m[i] == mem[i]
  {
    mem[..off] + data + mem[off + |data|..]
  }
}
