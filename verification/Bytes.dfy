/** Bytes, and the little-endian form of integers. */
module Bytes {

  type Byte = b: int | 0 <= b < 256

  function Pow256(k: nat): (p: nat)
    ensures p >= 1
  {
    if k == 0 then 1 else 256 * Pow256(k - 1)
  }

  /** The k low bytes of n, the lowest first. */
  function LittleEndian(n: nat, k: nat): (bs: seq<Byte>)
    ensures |bs| == k
    decreases k
  {
    if k == 0 then [] else [n % 256] + LittleEndian(n / 256, k - 1)
  }

  function FromLittleEndian(bs: seq<Byte>): nat {
    if |bs| == 0 then 0 else bs[0] + 256 * FromLittleEndian(bs[1..])
  }

  lemma {:induction false} LittleEndianBack(n: nat, k: nat)
    requires n < Pow256(k)
    ensures FromLittleEndian(LittleEndian(n, k)) == n
    decreases k
  {
    if k > 0 {
      var bs := LittleEndian(n, k);
      assert bs[1..] == LittleEndian(n / 256, k - 1);
      LittleEndianBack(n / 256, k - 1);
    }
  }

  const TWO32: int := 0x1_0000_0000
  const TWO31: int := 0x8000_0000

  lemma Pow256Four()
    ensures Pow256(4) == TWO32
  {
  }

  lemma Pow256Eight()
    ensures Pow256(8) == TWO32 * TWO32
  {
    assert Pow256(4) == TWO32;
    assert Pow256(6) == TWO32 * 65536;
  }

  /** A C int, in two's complement. */
  function IntBytes(x: int): (bs: seq<Byte>)
    ensures |bs| == 4
  {
    LittleEndian(x % TWO32, 4)
  }

  function BytesInt(bs: seq<Byte>): int {
    var n := FromLittleEndian(bs);
    if n >= TWO31 then n - TWO32 else n
  }

  lemma IntBack(x: int)
    requires -TWO31 <= x < TWO31
    ensures BytesInt(IntBytes(x)) == x
  {
    Pow256Four();
    LittleEndianBack(x % TWO32, 4);
  }

  lemma UnsignedBack(x: nat)
    requires x < TWO32
    ensures FromLittleEndian(IntBytes(x)) == x
  {
    hide LittleEndian, FromLittleEndian;
    Pow256Four();
    assert x % TWO32 == x;
    LittleEndianBack(x, 4);
  }
}
