/** Numbers shared by several parts. */
module Numbers {
  /** One more than the largest 32-bit unsigned value. */
  const U32: nat := 0x1_0000_0000

  function Max(a: nat, b: nat): nat { if a < b then b else a }
}
