# scel2ibus in Dafny

A model of `scel2ibus.py`, which converts Sogou `.scel` phonetic dictionaries
into word tables for the ibus input method. A `.scel` file is a fixed-layout
binary container:

- a 12-byte signature;
- four UTF-16LE header fields at fixed offsets;
- a pinyin table in `[0x1540, 0x2628)`. It opens with a 4-byte magic, followed
  by `(index:u16, length:u16, text)` records;
- a word-group table from `0x2628` to the end of the file. Each group holds a
  homophone count `same`, an index table naming its pinyin syllables, and
  `same` word records `(wordLen:u16, word, extLen:u16, ext)`.

The converter decodes all of this (`Scel.from_binary`). It then builds one
`(word, pinyin, count)` record per word (`get_word_info_list`). The pinyin is
the group's syllables joined by `'`, and the count is the first two extension
bytes. Finally it prints one `word pinyin count` line per record
(`to_ibus`).

The model follows the module structure of the program:

| module | models |
|---|---|
| `Results` | the exceptions the decoder lets escape, as an `Error` tag in a `Result` |
| `Bytes` | bytes, `struct` `<H` reads and writes, Python's clamped slicing |
| `Utf16` | `bytes.decode("utf-16le")`, with the well-formedness rule of section 2.2 of RFC 2781 |
| `TextFormat` | `str.join`, `str.split` (as a reference inverse) and `str(int)` |
| `ScelTypes` | the layout constants and the dataclasses |
| `Header` | `parse_header` |
| `Pinyins` | `parse_pinyin`, `parse_py_table` |
| `Words` | `parse_word`, `parse_word_group`, `parse_word_table` |
| `Ibus` | `get_word_pinyin`, `Scel.get_word_info_list`, `WordInfo.__repr__`, `Scel.to_ibus` |
| `ScelFile` | `Scel.from_binary` and the decode-then-render step of `process_scel_file` |

Each parsing function is a Dafny `function` returning `Result`. Python loops
become `method`s with `while`/`for` loops:

- the `while data:` loops of `parse_py_table` and `parse_word_table`;
- the `for` loop of `parse_word_group`;
- the nested loops of `get_word_info_list`.

Each such method is proved equal to its recursive specification function.
The properties are proved about those functions. They include:

- byte accounting: every parsed record re-encodes to exactly the bytes it
  consumed;
- round trips: encoding records and parsing them back gives them back, and
  splitting an ibus line recovers its record;
- the exact condition under which each step succeeds: the header, a pinyin
  record, a word record, an index table, a pinyin lookup, a word count and
  the record list of a whole table;
- record counts and ordering.

Behaviour of the program worth noting, which the model keeps:

- A pinyin record whose declared length runs past the end of the table is
  not rejected. The slice is clamped, and the remaining bytes are decoded: an
  odd count is a decode error, and an even count yields a shorter text.
  In a word record, an extension running past the end is clamped in the same
  way. A word text cut short by the end of the buffer is decoded first: an
  odd count of remaining bytes is a decode error. An even count decodes, but
  then no bytes are left for the `extLen` field, and reading it is a
  `struct.error`.
- Buffers shorter than `0x1540` bytes are not rejected by the header parser.
  Its fields are clamped slices, which are empty past the end of the buffer.
- The count is an unsigned 16-bit value (`struct` format `<H`), not a 32-bit
  one.
- The pinyin of a group goes through two lookups. `parse_word_group` replaces
  each raw position `p` by `pinyin_list[p].index`. `get_word_info_list` then
  uses those stored indices as positions again. The model keeps both lookups:
  - `Ibus.GroupPinyinTwoLookups` states the composed behaviour.
  - `Ibus.GroupPinyinOneLookup` proves it agrees with a single lookup
    whenever every entry's stored index is its own position.
  - `Ibus.GroupPinyinSecondLookup` gives a table where the two differ.

## Model

| member | source | states |
|---|---|---|
| Bytes.Slice | scel2ibus.py:155 | the length of `s[lo:hi]` is the range clamped to the buffer; inside the buffer it is the ordinary subsequence, and a range past the end is empty |
| Bytes.U16Le | scel2ibus.py:228 | reading two bytes with `struct` format `<H` gives the value whose low byte is the first and whose high byte is the second, so different byte pairs read differently |
| Bytes.Le16OfU16Le | scel2ibus.py:228 | packing a value read from two bytes gives those two bytes back |
| Bytes.Le16 | scel2ibus.py:124 | the two little-endian bytes of a u16 read back as that value |
| Bytes.Pack16 | scel2ibus.py:124 | `struct.pack(f"<{n}H", ...)` of `n` values is `2n` bytes; it is also the UTF-16LE encoding of `n` code units |
| Bytes.PairsOfPack16 | scel2ibus.py:124 | reading the packed bytes two at a time gives the packed values back |
| Bytes.Pack16OfPairs | scel2ibus.py:214 | an even-length buffer read two bytes at a time packs back to itself |
| Bytes.Unpack16 | scel2ibus.py:248 | unpacking `n` u16 values succeeds exactly when the buffer holds `2n` bytes (otherwise `struct.error`) and yields `n` values |
| Bytes.UnpackedBytes | scel2ibus.py:248 | unpacked values pack back to the very bytes they came from |
| Bytes.Unpack16OfPack16 | scel2ibus.py:124 | `struct.pack` followed by `struct.unpack` of the same count gives the values back |
| Utf16.Decode | scel2ibus.py:158-161 | decoding fails with a decode error exactly when the bytes are an odd number or not well-formed UTF-16; decoded text is well-formed and has half as many units as bytes |
| Utf16.DecodedBytes | scel2ibus.py:177 | decoded text encodes back to exactly its bytes |
| Utf16.DecodeOfPack16 | scel2ibus.py:229 | well-formed text survives encoding and decoding |
| TextFormat.Join | scel2ibus.py:215 | `sep.join` of no parts is empty; otherwise it starts with the first part and holds every part's units plus one separator between each pair of neighbours |
| TextFormat.SplitOfJoin | scel2ibus.py:215 | splitting a `sep.join` on a separator no part contains gives the parts back |
| TextFormat.Decimal | scel2ibus.py:32 | `str(n)` is a non-empty string of decimal digits with no leading zero |
| TextFormat.DigitsValueOfDecimal | scel2ibus.py:32 | the digits of `str(n)` denote `n` |
| TextFormat.DecimalInjective | scel2ibus.py:32 | different counts render differently |
| Header.ParseHeader | scel2ibus.py:155-163 | a signature mismatch (including a buffer under 12 bytes) is rejected; otherwise the header parses exactly when the four clamped field ranges decode; a file ending before the name field has four empty fields |
| Header.HeaderFields | scel2ibus.py:155-161 | the signature is the first 12 bytes, and each field encodes back to exactly its byte range |
| Pinyins.ParsePinyin | scel2ibus.py:176-178 | fewer than 4 bytes is a `struct.error`; otherwise the record parses exactly when its clamped text decodes; the text never exceeds the declared length, and it fills that length exactly unless the record ends the buffer |
| Pinyins.ParsePinyinBytes | scel2ibus.py:176-178 | a parsed record and the remaining bytes make up the whole input |
| Pinyins.PinyinEntries | scel2ibus.py:195-198 | the loop fails only with `struct.error` or a decode error, and reads at most one record per 4 bytes |
| Pinyins.PinyinEntriesBytes | scel2ibus.py:195-198 | the records read by the loop account for every byte of the table body |
| Pinyins.PinyinEntriesShaped | scel2ibus.py:195-198 | every record but the last holds exactly its declared length of text |
| Pinyins.PyTableOf | scel2ibus.py:191-200 | a table without the magic `9d 01 00 00` is rejected, and a parsed table keeps that magic as its header |
| Pinyins.PyTableBytes | scel2ibus.py:191-200 | a parsed table region is the magic followed by the bytes of its records, and nothing else |
| Pinyins.ParsePyTable | scel2ibus.py:191-200 | the `while data:` loop computes exactly the table `PyTableOf` describes, errors included |
| Pinyins.PinyinEntriesOfRecords | scel2ibus.py:196-198 | encoding exact, well-formed records and parsing them back gives the same records |
| Words.ParseWord | scel2ibus.py:228-232 | under 2 bytes is a `struct.error`; a record parses exactly when the buffer holds the word and its `extLen` field and the word's bytes decode; the decoded word fills exactly `wordLen` bytes; the extension is whole whenever the buffer holds `extLen` bytes after the field (and always when bytes remain), and is otherwise clamped to the end |
| Words.ParseWordBytes | scel2ibus.py:228-232 | a parsed word record and the remaining bytes make up the whole input |
| Words.ParseWordOfBytes | scel2ibus.py:228-232 | encoding a well-formed word record and parsing it back gives the record and the following bytes |
| Words.ParseWords | scel2ibus.py:253-255 | a successful run of `same` reads yields exactly `same` words |
| Words.ParseWordsBytes | scel2ibus.py:252-255 | the words read lie end to end in the input, followed by the rest |
| Words.ParseWordsOfBytes | scel2ibus.py:252-255 | encoding well-formed word records and reading that many back gives the records and the following bytes |
| Words.ParseWordsWholeExt | scel2ibus.py:253-255 | only the last word of a group can have an extension cut short |
| Words.StoredIndices | scel2ibus.py:249 | the comprehension fails only with IndexError, and keeps one value per raw position |
| Words.StoredIndicesSpec | scel2ibus.py:249 | the comprehension succeeds exactly when every raw position is in range, and then holds `pinyin_list[p].index` for each position `p` |
| Words.IndexTable | scel2ibus.py:246-249 | an index table whose clamped bytes are not exactly `2 * (py_table_len // 2)` is a `struct.error`, whether the declared length is odd or the buffer ends early; a resolved table has `py_table_len // 2` entries |
| Words.WordGroupIndices | scel2ibus.py:247-249 | a whole index table resolves exactly when every raw position is in range (otherwise IndexError), keeping the stored index of each named entry |
| Words.WordGroupOf | scel2ibus.py:246-257 | a parsed group consumes at least its 4 header bytes |
| Words.WordGroupBytes | scel2ibus.py:246-257 | a parsed group is its header, its raw index table and its word records (the `same` records read from the bytes after the index table), followed by the rest of the table |
| Words.ReadWords | scel2ibus.py:251-255 | the counted loop computes exactly `ParseWords` |
| Words.ParseWordGroup | scel2ibus.py:246-257 | `parse_word_group` computes exactly `WordGroupOf`, errors included |
| Words.WordGroups | scel2ibus.py:271-276 | every parsed group holds `same` words and `py_table_len // 2` indices, and each group takes at least 4 bytes of the region |
| Words.WordGroupsBytes | scel2ibus.py:271-276 | the word-table region is exactly its groups' bytes in file order (each group's header, raw index table and word records, nothing else), and each raw index table resolves to that group's stored indices |
| Words.ParseWordTable | scel2ibus.py:271-276 | the `while data:` loop computes exactly `WordGroups`, errors included |
| Ibus.PinyinsAt | scel2ibus.py:215 | the lookup fails only with IndexError, and yields one text per position |
| Ibus.PinyinsAtSpec | scel2ibus.py:215 | the lookup succeeds exactly when every position is in range, and then yields `pinyin_list[i].pinyin` for each position `i`, in order |
| Ibus.GetWordPinyin | scel2ibus.py:214-215 | an odd number of bytes is a `struct.error`, any other failure is IndexError, and no bytes give the empty pinyin |
| Ibus.GetWordPinyinSpec | scel2ibus.py:214-215 | on packed positions, the pinyin resolves exactly when every position is in range |
| Ibus.GetWordPinyinSplit | scel2ibus.py:215 | when no syllable holds an apostrophe, splitting the pinyin at apostrophes gives back the syllable at each position |
| Ibus.GroupPinyinTwoLookups | scel2ibus.py:122-126 | every raw position of a parsed group is in range and is stored as `pinyin_list[p].index`; the group's pinyin resolves exactly when each such second position is in range, and is then the texts of `pinyin_list[pinyin_list[p].index]` for the raw positions `p`, in order, joined by `'` |
| Ibus.GroupPinyinOneLookup | scel2ibus.py:122-126 | when every entry's stored index is its position, a group's pinyin resolves and equals `get_word_pinyin` of its index-table bytes on disk |
| Ibus.GroupPinyinSecondLookup | scel2ibus.py:122-126 | a concrete table where the raw position names "a" but the group reads "b" |
| Ibus.WordCount | scel2ibus.py:128 | no extension bytes give count 0, a single extension byte is a `struct.error`, and otherwise the count is the first two bytes read little-endian |
| Ibus.GroupInfos | scel2ibus.py:127-129 | a group's records fail only with `struct.error`, and there is one per word |
| Ibus.GroupInfosSpec | scel2ibus.py:127-129 | a group's records exist exactly when no word has a one-byte extension; record k is word k with the group's pinyin and that word's count |
| Ibus.GroupPinyin | scel2ibus.py:123-126 | a group's pinyin can fail only with IndexError, and a group with an empty index table has the empty pinyin |
| Ibus.WordInfosOf | scel2ibus.py:121-130 | the record list fails only with IndexError (a pinyin lookup) or `struct.error` (a one-byte extension), and an empty table gives no records |
| Ibus.WordInfosOfAppend | scel2ibus.py:121-130 | the records of two tables laid end to end are the first table's records followed by the second's |
| Ibus.WordInfosOfCount | scel2ibus.py:121-130 | there is one record per word of the table |
| Ibus.WordInfosOfOk | scel2ibus.py:121-130 | the records exist exactly when every group's pinyin resolves and no word has a one-byte extension |
| Ibus.GetWordInfoList | scel2ibus.py:121-130 | the nested loops compute exactly `WordInfosOf`, errors included |
| Ibus.OneIndexPinyin | scel2ibus.py:122-126 | a group whose only index is 0 reads the text of the first pinyin entry |
| Ibus.OneWordInfos | scel2ibus.py:121-130 | one group of one word without extension bytes yields the single record (word, group pinyin, 0) |
| Ibus.Line | scel2ibus.py:31-32 | a line is the word, the pinyin and the decimal count with one separator between each; it holds no newline when neither text does |
| Ibus.LineFields | scel2ibus.py:31-32 | a line splits at spaces into word, pinyin and count digits when neither text holds a space |
| Ibus.LineRoundTrip | scel2ibus.py:31-32 | a record whose word and pinyin hold no space is read back from its line |
| Ibus.IbusText | scel2ibus.py:142 | the ibus text always ends with a newline |
| Ibus.OneWordText | scel2ibus.py:31-32 | a single record with count 0 renders as `word pinyin 0` followed by a newline |
| Ibus.IbusTextRoundTrip | scel2ibus.py:142 | no records give a lone newline; otherwise, when no word or pinyin holds a space or newline, the text before the final newline splits into one line per record, and each line reads back as its record |
| Ibus.IbusOfOneWord | scel2ibus.py:121-142 | a dictionary of one group with one word, no extension bytes and index 0 renders as the one line `word pinyin 0` |
| Ibus.IbusOf | scel2ibus.py:142 | a rendered table ends with a newline |
| Ibus.ToIbus | scel2ibus.py:132-142 | `to_ibus` computes exactly `IbusOf`, errors included |
| ScelFile.PinyinRegion | scel2ibus.py:106 | the pinyin table is read from at most `0x2628 - 0x1540` bytes: `data[0x1540:0x2628]` of a file that long, every byte from `0x1540` on for a file ending inside the table, and nothing for a file ending by `0x1540` |
| ScelFile.WordRegion | scel2ibus.py:107 | the word table is read from every byte after `0x2628`, and from nothing for a file ending by then |
| ScelFile.RegionsCover | scel2ibus.py:104-107 | a file reaching the word table is its header area, then the pinyin region, then the word region, with no byte skipped or read twice |
| ScelFile.ScelOf | scel2ibus.py:104-109 | a signature mismatch is rejected first; a file whose header parses but ends before the pinyin table lacks the pinyin magic; a decoded file has both magics and reaches past the pinyin magic |
| ScelFile.ScelRegions | scel2ibus.py:104-109 | a decoded file's parts are the parsers' results on their regions; the pinyin region is the magic plus its records; each group holds `same` words; the word table is empty exactly when the file ends by `0x2628` |
| ScelFile.FromBinary | scel2ibus.py:104-109 | `from_binary` computes exactly `ScelOf`, errors included |
| ScelFile.Convert | scel2ibus.py:289-292 | a signature mismatch is rejected, and a converted text ends with a newline |
| ScelFile.ConvertScel | scel2ibus.py:289-292 | decoding then rendering computes exactly `Convert` |
| ScelFile.TotalWordsOfSame | scel2ibus.py:253-255 | when each group holds `same` words, the table holds the sum of the `same` counts |
| ScelFile.ConvertRecords | scel2ibus.py:289-292 | a converted file is the ibus text of its record list, which holds as many records as the groups' `same` counts add up to |
| ScelFile.ConvertEmpty | scel2ibus.py:142 | a file with a valid header and pinyin table but no word groups converts to a lone newline |

## Left out

- `process_scel_file` and `main` are left out as I/O. This covers:
  - reading the file and writing the output file;
  - the progress message;
  - the `.scel` to `.txt` renaming;
  - the `glob` search.
  `ScelFile.ConvertScel` models the part between reading and writing.
- Text is modelled as UTF-16 code units, not as Python code points. A
  surrogate pair is two units here and one character in Python. The
  separators (space, apostrophe, newline) and the digits are single units
  either way.
- The UTF-8 encoding of the written file is not modelled.
- Exceptions are modelled as an `Error` tag per exception kind. Their
  messages are left out.
- The dataclass boilerplate (`__init__`, `__eq__`) is not modelled. The
  decoded `Scel` is never mutated, so it is a value.
- Python's negative indexing is not modelled. Every index the program uses
  is an unsigned 16-bit value, so it never arises.
