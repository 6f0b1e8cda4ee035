/** The machine words of the program. */
module Words {
  const TWO32: int := 0x1_0000_0000
  const TWO64: int := 0x1_0000_0000_0000_0000
  const INT_MAX: int := 0x7fff_ffff
  const UINT_MAX: int := 0xffff_ffff

  /** Small numbers survive in a byte. */
  lemma ThereAndBack(n: nat)
    requires n < 128
    ensures n as bv8 as int == n
  {
  }
}
