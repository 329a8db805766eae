/**
  Disk blocks: BSIZE bytes, which the kernel also reads and writes through
  pointers to little-endian 32-bit words (log header, indirect blocks).
 */
module Blocks {
  import opened Common

  const BSIZE := 512
  const WORDS := 128  // BSIZE / sizeof(uint)

  type Block = b: seq<Byte> | |b| == BSIZE witness seq(BSIZE, _ => 0)

  function ZeroBlock(): Block {
    seq(BSIZE, _ => 0)
  }

  function Compose(b0: int, b1: int, b2: int, b3: int): int {
    b0 + 0x100 * (b1 + 0x100 * (b2 + 0x100 * b3))
  }

  /** The i-th word of a block. */
  function GetWord(b: Block, i: nat): Word
    requires i < WORDS
  {
    Compose(b[4 * i], b[4 * i + 1], b[4 * i + 2], b[4 * i + 3])
  }

  function Low(w: nat): Byte {
    w % 0x100
  }

  /** Stores a word in place; every other word keeps its value. */
  function PutWord(b: Block, i: nat, w: Word): (r: Block)
    requires i < WORDS
    ensures GetWord(r, i) == w
    ensures forall j: nat | j < WORDS && j != i :: GetWord(r, j) == GetWord(b, j)
  {
    var w1 := w / 0x100;
    var w2 := w1 / 0x100;
    b[4 * i := Low(w)][4 * i + 1 := Low(w1)][4 * i + 2 := Low(w2)][4 * i + 3 := w2 / 0x100]
  }

  lemma ZeroWords(i: nat)
    requires i < WORDS
    ensures GetWord(ZeroBlock(), i) == 0
  {
  }
}
