/** Bytes and line levels, and the LSB-first correspondence between a byte
    and the eight levels that carry it on a serial line. */
module Bits {

  /** One byte of a command or response frame. */
  type Byte = bv8

  /** The level of one digital line: 0 (low) or 1 (high). */
  type Bit = bv1

  /** Bit i of x, counting from the least significant bit: `(x >> i) & 1`. */
  function BitAt(x: Byte, i: nat): Bit
    requires i < 8
  {
    ((x >> i) & 1) as Bit
  }

  /** The eight bits of x, least significant first. */
  function BitsOf(x: Byte): (s: seq<Bit>)
    ensures |s| == 8
    ensures forall i :: 0 <= i < 8 ==> s[i] == BitAt(x, i)
  {
    seq(8, i requires 0 <= i < 8 => BitAt(x, i))
  }

  /** The byte carried by eight levels sent least significant bit first. */
  function FromBits(s: seq<Bit>): (x: Byte)
    requires |s| == 8
    ensures forall i :: 0 <= i < 8 ==> BitAt(x, i) == s[i]
  {
    (s[0] as Byte)
    | ((s[1] as Byte) << 1) | ((s[2] as Byte) << 2) | ((s[3] as Byte) << 3)
    | ((s[4] as Byte) << 4) | ((s[5] as Byte) << 5) | ((s[6] as Byte) << 6)
    | ((s[7] as Byte) << 7)
  }

  /** A byte is determined by its eight bits. */
  lemma ByteExt(x: Byte, y: Byte)
    requires forall i :: 0 <= i < 8 ==> BitAt(x, i) == BitAt(y, i)
    ensures x == y
  {
    assert BitAt(x, 0) == BitAt(y, 0) && BitAt(x, 1) == BitAt(y, 1);
    assert BitAt(x, 2) == BitAt(y, 2) && BitAt(x, 3) == BitAt(y, 3);
    assert BitAt(x, 4) == BitAt(y, 4) && BitAt(x, 5) == BitAt(y, 5);
    assert BitAt(x, 6) == BitAt(y, 6) && BitAt(x, 7) == BitAt(y, 7);
  }

  /** Reading back the bits of a byte LSB-first gives the byte again. */
  lemma FromBitsOf(x: Byte)
    ensures FromBits(BitsOf(x)) == x
  {
    ByteExt(FromBits(BitsOf(x)), x);
  }

  /** The byte assembled from the first n levels of s, least significant
      bit first, the remaining bits clear. */
  function Assembled(s: seq<Bit>, n: nat): Byte
    requires n <= |s| == 8
  {
    if n == 0 then 0 else Assembled(s, n - 1) | ((s[n - 1] as Byte) << (n - 1))
  }

  /** Assembling all eight levels gives the byte they carry. */
  lemma AssembledAll(s: seq<Bit>)
    requires |s| == 8
    ensures Assembled(s, 8) == FromBits(s)
  {
    assert Assembled(s, 1) == (s[0] as Byte);
    assert Assembled(s, 2) == Assembled(s, 1) | ((s[1] as Byte) << 1);
    assert Assembled(s, 3) == Assembled(s, 2) | ((s[2] as Byte) << 2);
    assert Assembled(s, 4) == Assembled(s, 3) | ((s[3] as Byte) << 3);
    assert Assembled(s, 5) == Assembled(s, 4) | ((s[4] as Byte) << 4);
    assert Assembled(s, 6) == Assembled(s, 5) | ((s[5] as Byte) << 5);
    assert Assembled(s, 7) == Assembled(s, 6) | ((s[6] as Byte) << 6);
    assert Assembled(s, 8) == Assembled(s, 7) | ((s[7] as Byte) << 7);
  }
}
