/** Disk blocks. A block is 512 bytes; the kernel casts `bp->data` to `uint*` for
    everything but file contents, so a block is held as its 128 little-endian
    words and the byte view is derived from them. */
module Blocks {

  const BSIZE := 512
  const WORDS := 128            // NINDIRECT: words per block
  const WORD_LIMIT := 0x1_0000_0000

  type word = x: int | 0 <= x < WORD_LIMIT
  type Block = b: seq<word> | |b| == WORDS witness seq(WORDS, _ => 0)

  function ZeroBlock(): (b: Block)
    ensures forall i :: 0 <= i < WORDS ==> b[i] == 0
  {
    seq(WORDS, _ => 0)
  }
}
