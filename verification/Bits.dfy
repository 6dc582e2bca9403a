/** Facts about the bits of a register. */
module Bits {
  lemma AddIsOr(a: bv8, b: bv8)
    requires a & b == 0
    ensures a + b == a | b
  {
  }

  lemma ShiftBack(mask: bv8, value: bv8, n: bv8)
    requires n < 8
    ensures (mask & (value << n)) >> n == value & (mask >> n)
  {
  }

  lemma PutAndTake(reg: bv8, mask: bv8, x: bv8)
    ensures ((reg & !mask) + (mask & x)) & mask == mask & x
  {
    AddIsOr(reg & !mask, mask & x);
  }

  lemma KeepsOutside(reg: bv8, mask: bv8, x: bv8, other: bv8)
    requires mask & other == 0
    ensures ((reg & !mask) + (mask & x)) & other == reg & other
  {
    AddIsOr(reg & !mask, mask & x);
  }

  /** Bit n is the lowest one of a mask. */
  predicate Lowest(mask: bv8, n: bv8) {
    n < 8 && mask & (1 << n) != 0 && mask & ((1 << n) - 1) == 0
  }

  lemma LowestUnique(mask: bv8, m: bv8, n: bv8)
    requires Lowest(mask, m) && Lowest(mask, n)
    ensures m == n
  {
  }

  /** Looking one bit further. */
  lemma NextBit(mask: bv8, n: bv8)
    requires n < 8 && mask & ((1 << n) - 1) == 0
    ensures if (mask >> n) & 1 == 1 then Lowest(mask, n) else (mask >> n) & 1 == 0 && mask & ((1 << (n + 1)) - 1) == 0
  {
  }

  // ---- Bytes and numbers -------------------------------------------------------------------

  function ByteOf(n: nat): bv8
    requires n < 256
  {
    if n == 0 then 0 else ByteOf(n - 1) + 1
  }

  lemma NextByte(b: bv8)
    requires b != 255
    ensures (b + 1) as int == b as int + 1
  {
  }

  lemma {:induction false} ByteOfInt(n: nat)
    requires n < 256
    ensures ByteOf(n) as int == n
  {
    if n > 0 {
      ByteOfInt(n - 1);
      NextByte(ByteOf(n - 1));
    }
  }

  lemma NibbleOfByte(b: bv8)
    ensures (b & 0x0f) as int == (b as int) % 16
  {
  }
}
