/** 32-bit machine words. */
module Words {
  const WORD: nat := 0x1_0000_0000

  type Word32 = w: int | 0 <= w < 0x1_0000_0000 witness 0
}
