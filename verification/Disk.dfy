/** The block device below the buffer cache: a fixed number of blocks, each
    written atomically (`iderw` moves one whole block). A block is seen as the
    128 words of its 512 bytes. */
module Disk {
  const BLOCK_WORDS := 128

  datatype Block = Block(words: seq<int>)
  type Image = seq<Block>
}

/** param.h */
module Params {
  const MAXOPBLOCKS := 10
  const LOGSIZE := MAXOPBLOCKS * 3
  const NBUF := MAXOPBLOCKS * 3
  const NPROC := 64
}
