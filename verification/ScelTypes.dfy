/** Layout constants of the `.scel` dictionary and the values decoded from it. */
module ScelTypes {
  import opened Bytes
  import opened Utf16

  /** Start of the pinyin table (PY_OFFSET). */
  const PinyinOffset: nat := 0x1540
  /** Start of the word-group table (WORDGROUP_OFFSET). */
  const WordGroupOffset: nat := 0x2628

  /** The 12 bytes every `.scel` file starts with. */
  const Signature: seq<Byte> := [0x40, 0x15, 0x00, 0x00, 0x44, 0x43, 0x53, 0x01, 0x01, 0x00, 0x00, 0x00]
  /** The 4 bytes the pinyin table starts with. */
  const PinyinMagic: seq<Byte> := [0x9d, 0x01, 0x00, 0x00]

  /** Byte ranges of the four header text fields. */
  const NameStart: nat := 0x130
  const TypeStart: nat := 0x338
  const DescriptionStart: nat := 0x540
  const ExampleStart: nat := 0xD40
  const ExampleEnd: nat := 0x1540

  datatype ScelHeader = ScelHeader(signature: seq<Byte>, name: Text, dictType: Text, description: Text, example: Text)

  /** One pinyin-table record: its stored index, its declared byte length and its text. */
  datatype Pinyin = Pinyin(index: U16, length: U16, pinyin: Text)

  datatype PinyinTable = PinyinTable(header: seq<Byte>, pinyinList: seq<Pinyin>)

  /** One word record; the first two bytes of `ext`, when present, are its frequency. */
  datatype Word = Word(wordLen: U16, word: Text, extLen: U16, ext: seq<Byte>)

  /**
    * A group of homophones: `same` words sharing one reading whose pinyin
    * entries are named by `pyTable` (`pyTableLen` is its byte length on disk).
    */
  datatype WordGroup = WordGroup(same: U16, pyTableLen: U16, pyTable: seq<U16>, words: seq<Word>)

  type WordTable = seq<WordGroup>

  datatype Scel = Scel(header: ScelHeader, pinyinTable: PinyinTable, wordTable: WordTable)

  /** One output record: a word, its apostrophe-joined pinyin and its frequency. */
  datatype WordInfo = WordInfo(word: Text, pinyin: Text, count: U16)
}
