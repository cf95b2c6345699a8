/** Unsigned machine words and their wrapping sums. */
module Words {
  const TWO32 := 0x1_0000_0000
  const TWO63 := 0x8000_0000_0000_0000
  const TWO64 := 0x1_0000_0000_0000_0000

  /** uint32_t and uint64_t. */
  type Word32 = n: nat | n < TWO32
  type Word64 = n: nat | n < TWO64

  function Add32(a: Word32, b: Word32): Word32 { if a + b < TWO32 then a + b else a + b - TWO32 }

  function Add64(a: Word64, b: Word64): Word64 { if a + b < TWO64 then a + b else a + b - TWO64 }
}
