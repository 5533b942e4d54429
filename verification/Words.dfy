/** Machine words. */
module Words {
  /** Number of values of an `unsigned int`. */
  const U32: nat := 0x1_0000_0000
}
