/**
  * `Scel.from_binary` and the conversion `process_scel_file` performs: the
  * header, the pinyin table and the word table read from their fixed
  * regions, then rendered as an ibus table.
  */
module ScelFile {
  import opened Results
  import opened Bytes
  import opened Utf16
  import opened TextFormat
  import opened ScelTypes
  import opened Header
  import opened Pinyins
  import opened Words
  import opened Ibus

  /** The pinyin-table region `data[PY_OFFSET:WORDGROUP_OFFSET]`. */
  function PinyinRegion(data: seq<Byte>): (r: seq<Byte>)
    ensures |r| <= WordGroupOffset - PinyinOffset
    ensures |data| <= PinyinOffset ==> r == []
    ensures PinyinOffset <= |data| <= WordGroupOffset ==> r == data[PinyinOffset..]
    ensures WordGroupOffset <= |data| ==> r == data[PinyinOffset..WordGroupOffset]
  {
    Slice(data, PinyinOffset, WordGroupOffset)
  }

  /** The word-table region `data[WORDGROUP_OFFSET:]`. */
  function WordRegion(data: seq<Byte>): (r: seq<Byte>)
    ensures |data| <= WordGroupOffset ==> r == []
    ensures WordGroupOffset <= |data| ==> r == data[WordGroupOffset..] && |r| == |data| - WordGroupOffset
  {
    Slice(data, WordGroupOffset, |data|)
  }

  /** A file reaching the word table is its header area, then the pinyin region, then the word region. */
  lemma RegionsCover(data: seq<Byte>)
    requires WordGroupOffset <= |data|
    ensures data == data[..PinyinOffset] + PinyinRegion(data) + WordRegion(data)
  {
    Cut3(data, PinyinOffset, WordGroupOffset);
  }

  /**
    * `Scel.from_binary`, as a value: the header, then the pinyin table, then
    * the word table read against that pinyin table; the first failure wins.
    * A file whose header parses but that stops before the pinyin table has
    * no pinyin magic.
    */
  function ScelOf(data: seq<Byte>): (r: Result<Scel>)
    ensures Slice(data, 0, 12) != Signature ==> r == Err(BadSignature)
    ensures ParseHeader(data).Ok? && |data| <= PinyinOffset ==> r == Err(BadPinyinMagic)
    ensures r.Ok? ==> r.value.header.signature == Signature && r.value.pinyinTable.header == PinyinMagic
    ensures r.Ok? ==> PinyinOffset + 4 <= |data|
  {
    var header := ParseHeader(data);
    if header.Err? then Err(header.error)
    else
      var pyTable := PyTableOf(PinyinRegion(data));
      if pyTable.Err? then Err(pyTable.error)
      else
        var wordTable := WordGroups(WordRegion(data), pyTable.value.pinyinList);
        if wordTable.Err? then Err(wordTable.error)
        else Ok(Scel(header.value, pyTable.value, wordTable.value))
  }

  /**
    * The parts of a decoded file are the parsers' results on their regions:
    * the pinyin region is the magic followed by the records of the pinyin
    * list, every group holds `same` words, and the word table is empty
    * exactly when the file ends at or before WORDGROUP_OFFSET.
    */
  lemma ScelRegions(data: seq<Byte>)
    requires ScelOf(data).Ok?
    ensures
      var scel := ScelOf(data).value;
      && ParseHeader(data) == Ok(scel.header)
      && PyTableOf(PinyinRegion(data)) == Ok(scel.pinyinTable)
      && WordGroups(WordRegion(data), scel.pinyinTable.pinyinList) == Ok(scel.wordTable)
      && PinyinRegion(data) == PinyinMagic + RecordsBytes(scel.pinyinTable.pinyinList)
      && (forall i :: 0 <= i < |scel.wordTable| ==> |scel.wordTable[i].words| == scel.wordTable[i].same)
      && (scel.wordTable == [] <==> |data| <= WordGroupOffset)
  {
    PyTableBytes(PinyinRegion(data));
  }

  /** `Scel.from_binary`: parse the header, then the pinyin table, then the word table. */
  method FromBinary(data: seq<Byte>) returns (r: Result<Scel>)
    ensures r == ScelOf(data)
  {
    var header := ParseHeader(data);
    if header.Err? {
      return Err(header.error);
    }
    var pyTable := ParsePyTable(PinyinRegion(data));
    if pyTable.Err? {
      return Err(pyTable.error);
    }
    var wordTable := ParseWordTable(WordRegion(data), pyTable.value);
    if wordTable.Err? {
      return Err(wordTable.error);
    }
    return Ok(Scel(header.value, pyTable.value, wordTable.value));
  }

  /** The text `process_scel_file` writes for the bytes of a dictionary. */
  function Convert(data: seq<Byte>): (r: Result<Text>)
    ensures Slice(data, 0, 12) != Signature ==> r == Err(BadSignature)
    ensures r.Ok? ==> |r.value| >= 1 && r.value[|r.value| - 1] == Newline
  {
    var scel := ScelOf(data);
    if scel.Err? then Err(scel.error)
    else
      IbusOf(scel.value)
  }

  /** `process_scel_file` without its file reading and writing: decode, then render. */
  method ConvertScel(data: seq<Byte>) returns (r: Result<Text>)
    ensures r == Convert(data)
  {
    var scel := FromBinary(data);
    if scel.Err? {
      return Err(scel.error);
    }
    r := ToIbus(scel.value);
  }

  /** The sum of the groups' `same` counts. */
  function TotalSame(table: WordTable): nat
  {
    if table == [] then 0 else table[0].same + TotalSame(table[1..])
  }

  /** When each group holds `same` words, the table holds as many words as the `same` counts add up to. */
  lemma {:induction false} TotalWordsOfSame(table: WordTable)
    requires forall i :: 0 <= i < |table| ==> |table[i].words| == table[i].same
    ensures TotalWords(table) == TotalSame(table)
  {
    if table != [] {
      assert forall i :: 0 <= i < |table[1..]| ==> table[1..][i] == table[i + 1];
      TotalWordsOfSame(table[1..]);
    }
  }

  /**
    * A converted dictionary is the ibus text of its record list, which holds
    * one record per word, as many as the groups' `same` counts add up to.
    */
  lemma ConvertRecords(data: seq<Byte>)
    requires Convert(data).Ok?
    ensures ScelOf(data).Ok?
    ensures
      var scel := ScelOf(data).value;
      var infos := WordInfosOf(scel.wordTable, scel.pinyinTable);
      && infos.Ok?
      && Convert(data) == Ok(IbusText(infos.value))
      && |infos.value| == TotalSame(scel.wordTable)
  {
    var scel := ScelOf(data).value;
    ScelRegions(data);
    WordInfosOfCount(scel.wordTable, scel.pinyinTable);
    TotalWordsOfSame(scel.wordTable);
  }

  /** A dictionary with a valid header and pinyin table but no word groups converts to a single newline. */
  lemma ConvertEmpty(data: seq<Byte>)
    requires ParseHeader(data).Ok? && PyTableOf(PinyinRegion(data)).Ok?
    requires |data| <= WordGroupOffset
    ensures Convert(data) == Ok([Newline])
  {
    assert WordRegion(data) == [];
    IbusTextRoundTrip([]);
  }
}
