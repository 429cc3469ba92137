/** Machine words, and the ordering of multiples. */
module Integers {

  const WORD := 0x1_0000_0000_0000_0000
  const MAX_UINT64 := WORD - 1
  const MAX_INT64 := 0x7FFF_FFFF_FFFF_FFFF

  lemma MultiplesGrow(a: nat, b: nat, n: nat)
    requires a <= b
    ensures a * n <= b * n
  {
  }
}
