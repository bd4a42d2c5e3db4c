/** Machine numbers: bytes and 32-bit words. */
module Machine {

  const WORD := 0x1_0000_0000

  newtype byte = x: int | 0 <= x < 256

  type Word = x: int | 0 <= x < WORD witness 0
}
