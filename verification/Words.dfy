/** Bytes and machine words. */
module Words {

  type Byte = x: int | 0 <= x < 256

  /** 2^32 and 2^64, where the words of the source wrap around. */
  const U32: nat := 0x1_0000_0000
  const U64: nat := 0x1_0000_0000_0000_0000

  /** 2^n. */
  function Pow2(n: nat): (r: nat)
    ensures r > 0
  {
    if n == 0 then 1 else 2 * Pow2(n - 1)
  }
}
