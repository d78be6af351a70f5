/** Bytes, big-endian fields and the bitwise exclusive-or that every keystream is applied with. */
module Bytes {
  type byte = x: int | 0 <= x < 256

  /** The two bytes of a 16-bit big-endian field. */
  function Be16(v: nat): (r: seq<byte>)
    requires v < 0x1_0000
    ensures |r| == 2
  {
    [v / 256, v % 256]
  }

  function FromBe16(hi: byte, lo: byte): (v: nat)
    ensures v < 0x1_0000
  {
    hi * 256 + lo
  }

  lemma Be16RoundTrip(v: nat)
    requires v < 0x1_0000
    ensures FromBe16(Be16(v)[0], Be16(v)[1]) == v
  {
  }

  function Zeros(n: nat): (r: seq<byte>)
    ensures |r| == n
  {
    seq(n, _ => 0)
  }

  function Pow2(n: nat): (r: nat)
    ensures r > 0
  {
    if n == 0 then 1 else 2 * Pow2(n - 1)
  }

  /** Exclusive-or of the low n bits of a and b, bit by bit. */
  function XorBits(a: nat, b: nat, n: nat): (r: nat)
    ensures r < Pow2(n)
  {
    if n == 0 then 0 else (a % 2 + b % 2) % 2 + 2 * XorBits(a / 2, b / 2, n - 1)
  }

  lemma {:induction false} XorBitsCancels(a: nat, b: nat, n: nat)
    requires a < Pow2(n)
    ensures XorBits(XorBits(a, b, n), b, n) == a
  {
    if n > 0 {
      var bit, rest := (a % 2 + b % 2) % 2, XorBits(a / 2, b / 2, n - 1);
      LowBit(bit, rest);
      BitCancels(a % 2, b % 2);
      XorBitsCancels(a / 2, b / 2, n - 1);
    }
  }

  lemma LowBit(bit: nat, rest: nat)
    requires bit < 2
    ensures (bit + 2 * rest) % 2 == bit && (bit + 2 * rest) / 2 == rest
  {
  }

  lemma BitCancels(x: nat, y: nat)
    requires x < 2 && y < 2
    ensures ((x + y) % 2 + y) % 2 == x
  {
  }

  function Xor(a: byte, b: byte): byte {
    assert Pow2(8) == 256 by { Pow2Of8(); }
    XorBits(a, b, 8)
  }

  lemma Pow2Of8()
    ensures Pow2(8) == 256
  {
  }

  /** Exclusive-or is its own inverse. */
  lemma XorCancels(a: byte, b: byte)
    ensures Xor(Xor(a, b), b) == a
  {
    Pow2Of8();
    XorBitsCancels(a, b, 8);
  }

  lemma {:induction false} XorBitsOfZero(b: nat, n: nat)
    requires b < Pow2(n)
    ensures XorBits(0, b, n) == b
  {
    if n > 0 { XorBitsOfZero(b / 2, n - 1); }
  }

  /** Bit i of a number. */
  function BitAt(a: nat, i: nat): nat {
    if i == 0 then a % 2 else BitAt(a / 2, i - 1)
  }

  lemma {:induction false} XorBitsAt(a: nat, b: nat, n: nat, i: nat)
    requires i < n
    ensures BitAt(XorBits(a, b, n), i) == if BitAt(a, i) == BitAt(b, i) then 0 else 1
  {
    var bit, rest := (a % 2 + b % 2) % 2, XorBits(a / 2, b / 2, n - 1);
    LowBit(bit, rest);
    assert XorBits(a, b, n) == bit + 2 * rest;
    if i > 0 { XorBitsAt(a / 2, b / 2, n - 1, i - 1); }
  }

  /** Every bit of the exclusive-or is set if and only if the two bits differ. */
  lemma XorDiffers(a: byte, b: byte, i: nat)
    requires i < 8
    ensures BitAt(Xor(a, b), i) == if BitAt(a, i) == BitAt(b, i) then 0 else 1
  {
    XorBitsAt(a, b, 8, i);
  }

  /** memcpy into a caller's buffer. */
  method Copy(dst: array<byte>, at: nat, src: seq<byte>)
    requires at + |src| <= dst.Length
    modifies dst
    ensures dst[..] == old(dst[..at]) + src + old(dst[at + |src|..])
  {
    forall i | 0 <= i < |src| {
      dst[at + i] := src[i];
    }
  }
}
