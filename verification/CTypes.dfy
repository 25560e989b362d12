/** The unsigned 32-bit integer of the kernel's C code. */
module CTypes {
  const WORDS: nat := 0x1_0000_0000

  type Word = w: nat | w < 0x1_0000_0000

  /** The shifts and masks of page table code, as divisions and remainders. */
  lemma BitForms(a: bv32)
    ensures a & 0xFFFF_F000 == a / 0x1000 * 0x1000 && a & 0xFFF == a % 0x1000
    ensures a >> 22 == a / 0x40_0000 && (a >> 12) & 0x3FF == a / 0x1000 % 0x400
    ensures a | 4 == (if a % 8 >= 4 then a else a + 4)
    ensures (a & 1 != 0 <==> a % 2 == 1) && (a & 2 != 0 <==> a % 4 >= 2) && (a & 4 != 0 <==> a % 8 >= 4)
  {
  }

  /** Setting, clearing and testing the lowest bit. */
  lemma LowestBit(w: bv32)
    ensures w | 1 == w / 2 * 2 + 1 && w & !1 == w / 2 * 2 && (w & 1 != 0 <==> w % 2 == 1)
  {
  }

  /** The same with the mask of a higher bit comes down to the halved word and the mask one bit lower:
      the equations by which PhysMem defines its bit operations. */
  lemma HigherBit(w: bv32, m: bv32)
    requires m < 0x8000_0000
    ensures w | (m << 1) == ((w / 2) | m) * 2 + w % 2
    ensures w & !(m << 1) == ((w / 2) & !m) * 2 + w % 2
    ensures w & (m << 1) != 0 <==> (w / 2) & m != 0
  {
  }
}
