/** A byte as a number and as eight bits. */
module ByteBits {

  lemma MaskBits(b: bv8)
    ensures (b & 0x22 != 0) <==> ((b / 2) % 2 == 1 || (b / 32) % 2 == 1)
    ensures (b & 0x11 != 0) <==> (b % 2 == 1 || (b / 16) % 2 == 1)
  {
  }

  lemma Halved(b: bv8)
    ensures (b / 2) as int == (b as int) / 2
  {
  }

  lemma Sixteenth(b: bv8)
    ensures (b / 16) as int == (b as int) / 16
  {
  }

  lemma ThirtySecond(b: bv8)
    ensures (b / 32) as int == (b as int) / 32
  {
  }

  lemma LowBit(b: bv8)
    ensures b % 2 == 1 <==> (b as int) % 2 == 1
  {
  }

  lemma SameByte(x: int)
    requires 0 <= x < 256
    ensures (x as bv8) as int == x
  {
    assert x % 256 == x;
  }
}
