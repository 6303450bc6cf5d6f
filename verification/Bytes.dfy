/**
 Bytes, and 32-bit numbers as the machine keeps them.
 */
module Bytes {
  type byte = b: int | 0 <= b < 256

  const WORD: nat := 0x1_0000_0000

  // A little-endian 32-bit number.
  function Le32(b0: int, b1: int, b2: int, b3: int): int {
    b0 + 0x100 * (b1 + 0x100 * (b2 + 0x100 * b3))
  }

  /** The first byte counts ones. */
  lemma Le32Is(b0: int, b1: int, b2: int, b3: int)
    ensures Le32(b0, b1, b2, b3) == b0 + 0x100 * b1 + 0x1_0000 * b2 + 0x100_0000 * b3
  {
  }

  // Byte k of a 32-bit number.
  function Byte(x: nat, k: nat): byte {
    if k == 0 then x % 0x100
    else if k == 1 then x / 0x100 % 0x100
    else if k == 2 then x / 0x100 / 0x100 % 0x100
    else x / 0x100 / 0x100 / 0x100 % 0x100
  }

  lemma BytesOf(x: nat)
    requires x < WORD
    ensures Le32(Byte(x, 0), Byte(x, 1), Byte(x, 2), Byte(x, 3)) == x
  {
    var y := x / 0x100;
    var z := y / 0x100;
    assert x == y * 0x100 + x % 0x100 && y == z * 0x100 + y % 0x100 && z == z / 0x100 * 0x100 + z % 0x100;
  }

  lemma Digits(a: byte, b: byte, c: byte, d: byte)
    ensures var w := Le32(a, b, c, d);
            w % 0x100 == a && w / 0x100 % 0x100 == b && w / 0x100 / 0x100 % 0x100 == c && w / 0x100 / 0x100 / 0x100 == d
  {
    var y := c + 0x100 * d;
    var x := b + 0x100 * y;
    assert (a + 0x100 * x) / 0x100 == x && x / 0x100 == y && y / 0x100 == d;
  }

  // The low 32 bits of a number, read as a signed number.
  function Signed(x: int): (r: int)
    ensures -0x8000_0000 <= r < 0x8000_0000
  {
    if x % WORD < 0x8000_0000 then x % WORD else x % WORD - WORD
  }

  lemma SignedFits(x: int)
    ensures Signed(x) == x <==> -0x8000_0000 <= x < 0x8000_0000
    ensures (Signed(x) - x) % 0x1_0000_0000 == 0
  {
  }
}
