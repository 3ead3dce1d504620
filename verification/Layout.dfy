/** Where the segments are put in memory (`get_text_vaddr`, `get_data_vaddr`). */
module Layout {
  import opened Bits

  const EHDR_SIZE: nat := 52
  const PHDR_SIZE: nat := 32
  const CAPACITY: nat := 2048

  function TextVaddr(base: Word): Word {
    ToWord(base + EHDR_SIZE + PHDR_SIZE)
  }

  function DataVaddr(base: Word, textSize: nat): Word {
    ToWord(TextVaddr(base) + textSize)
  }
}
