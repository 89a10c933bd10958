/**
  * `get_word_pinyin`, `Scel.get_word_info_list`, `WordInfo.__repr__` and
  * `Scel.to_ibus`: from a decoded dictionary to the lines of an ibus table.
  */
module Ibus {
  import opened Results
  import opened Bytes
  import opened Utf16
  import opened TextFormat
  import opened ScelTypes
  import opened Words

  datatype Option<T> = None | Some(value: T)

  /**
    * `pinyin_list[i].pinyin for i in indices`: the text of the entry at each
    * position, failing with IndexError at the first position past the end.
    */
  function PinyinsAt(indices: seq<U16>, pinyinList: seq<Pinyin>): (r: Result<seq<Text>>)
    ensures r.Err? ==> r.error == IndexError
    ensures r.Ok? ==> |r.value| == |indices|
  {
    if indices == [] then Ok([])
    else if indices[0] >= |pinyinList| then Err(IndexError)
    else Prepend([pinyinList[indices[0]].pinyin], PinyinsAt(indices[1..], pinyinList))
  }

  /** The lookup succeeds exactly when every position is in range, and then yields each entry's text in order. */
  lemma {:induction false} PinyinsAtSpec(indices: seq<U16>, pinyinList: seq<Pinyin>)
    ensures PinyinsAt(indices, pinyinList).Ok? <==> forall k :: 0 <= k < |indices| ==> indices[k] < |pinyinList|
    ensures PinyinsAt(indices, pinyinList).Ok? ==>
      forall k :: 0 <= k < |indices| ==> PinyinsAt(indices, pinyinList).value[k] == pinyinList[indices[k]].pinyin
  {
    if indices != [] {
      PinyinsAtSpec(indices[1..], pinyinList);
      if indices[0] < |pinyinList| {
        var tail := PinyinsAt(indices[1..], pinyinList);
        if tail.Ok? {
          forall k | 1 <= k < |indices|
            ensures PinyinsAt(indices, pinyinList).value[k] == pinyinList[indices[k]].pinyin
          {
            assert indices[k] == indices[1..][k - 1];
          }
        } else {
          var k :| 0 <= k < |indices[1..]| && indices[1..][k] >= |pinyinList|;
          assert indices[k + 1] >= |pinyinList|;
        }
      }
    }
  }

  /**
    * `get_word_pinyin`: reads `data` as `len(data) // 2` u16 positions (an odd
    * length fails to unpack) and joins the texts at those positions with `'`.
    */
  function GetWordPinyin(data: seq<Byte>, pyTable: PinyinTable): (r: Result<Text>)
    ensures |data| % 2 == 1 ==> r == Err(StructError)
    ensures |data| % 2 == 0 && r.Err? ==> r.error == IndexError
    ensures data == [] ==> r == Ok([])
  {
    var indices := Unpack16(|data| / 2, data);
    if indices.Err? then Err(indices.error)
    else
      var pieces := PinyinsAt(indices.value, pyTable.pinyinList);
      if pieces.Err? then Err(pieces.error) else Ok(Join(pieces.value, Apostrophe))
  }

  /** `get_word_pinyin` on packed positions is the lookup of those very positions, joined. */
  lemma GetWordPinyinOfPack16(ids: seq<U16>, pyTable: PinyinTable)
    ensures
      var pieces := PinyinsAt(ids, pyTable.pinyinList);
      GetWordPinyin(Pack16(ids), pyTable) == if pieces.Err? then Err(pieces.error) else Ok(Join(pieces.value, Apostrophe))
  {
    Unpack16OfPack16(ids);
  }

  /** On packed positions, the pinyin resolves exactly when every position is in range. */
  lemma GetWordPinyinSpec(ids: seq<U16>, pyTable: PinyinTable)
    ensures GetWordPinyin(Pack16(ids), pyTable).Ok? <==> forall k :: 0 <= k < |ids| ==> ids[k] < |pyTable.pinyinList|
  {
    GetWordPinyinOfPack16(ids, pyTable);
    PinyinsAtSpec(ids, pyTable.pinyinList);
  }

  /**
    * When every position is in range and no text it names holds an
    * apostrophe, splitting the pinyin at apostrophes gives back the text at
    * each position, in order.
    */
  lemma GetWordPinyinSplit(ids: seq<U16>, pyTable: PinyinTable)
    requires ids != []
    requires forall k :: 0 <= k < |ids| ==> ids[k] < |pyTable.pinyinList| && Apostrophe !in pyTable.pinyinList[ids[k]].pinyin
    ensures GetWordPinyin(Pack16(ids), pyTable).Ok?
    ensures
      var pieces := Split(GetWordPinyin(Pack16(ids), pyTable).value, Apostrophe);
      && |pieces| == |ids|
      && forall k :: 0 <= k < |ids| ==> pieces[k] == pyTable.pinyinList[ids[k]].pinyin
  {
    var list := pyTable.pinyinList;
    GetWordPinyinOfPack16(ids, pyTable);
    PinyinsAtSpec(ids, list);
    var pieces := PinyinsAt(ids, list).value;
    forall k | 0 <= k < |pieces|
      ensures Apostrophe !in pieces[k]
    {
      assert pieces[k] == list[ids[k]].pinyin;
    }
    SplitOfJoin(pieces, Apostrophe);
  }

  /** The pinyin of a group: its stored index table packed back to bytes and looked up (`get_word_info_list`). */
  function GroupPinyin(g: WordGroup, pyTable: PinyinTable): (r: Result<Text>)
    ensures r.Err? ==> r.error == IndexError
    ensures g.pyTable == [] ==> r == Ok([])
  {
    GetWordPinyin(Pack16(g.pyTable), pyTable)
  }

  /**
    * The index table of a parsed group is looked up twice: a raw position
    * `p` selects `pinyin_list[p].index`, and that stored index is used as a
    * position again. The pinyin of the group resolves exactly when every
    * such second position is in range, and its k-th piece is then the text
    * of `pinyin_list[pinyin_list[p].index]`.
    */
  lemma GroupPinyinTwoLookups(data: seq<Byte>, pyTable: PinyinTable)
    requires WordGroupOf(data, pyTable.pinyinList).Ok?
    ensures |data| >= 4
    ensures
      var g := WordGroupOf(data, pyTable.pinyinList).value.0;
      var raw := RawIndices(data);
      var list := pyTable.pinyinList;
      && (forall k :: 0 <= k < |raw| ==> raw[k] < |list|)
      && g.pyTable == StoredIndices(raw, list).value
      && (GroupPinyin(g, pyTable).Ok? <==> forall k :: 0 <= k < |raw| ==> list[raw[k]].index < |list|)
      && (GroupPinyin(g, pyTable).Ok? ==>
            GroupPinyin(g, pyTable).value
            == Join(SecondTexts(raw, list), Apostrophe))
  {
    var list := pyTable.pinyinList;
    WordGroupIndices(data, list);
    var g := WordGroupOf(data, list).value.0;
    var raw := RawIndices(data);
    GetWordPinyinSpec(g.pyTable, pyTable);
    StoredIndicesSpec(raw, list);
    if GroupPinyin(g, pyTable).Ok? {
      StoredPinyin(g.pyTable, raw, pyTable);
    }
  }

  /** The texts named by the second lookup: `pinyin_list[pinyin_list[p].index].pinyin` for each raw position `p`. */
  function SecondTexts(raw: seq<U16>, list: seq<Pinyin>): (r: seq<Text>)
    requires forall k :: 0 <= k < |raw| ==> raw[k] < |list| && list[raw[k]].index < |list|
    ensures |r| == |raw|
  {
    seq(|raw|, k requires 0 <= k < |raw| => list[list[raw[k]].index].pinyin)
  }

  /** The pinyin of stored indices taken from raw positions is the texts of the entries they name, joined. */
  lemma StoredPinyin(ids: seq<U16>, raw: seq<U16>, pyTable: PinyinTable)
    requires |ids| == |raw|
    requires forall k :: 0 <= k < |raw| ==> raw[k] < |pyTable.pinyinList| && ids[k] == pyTable.pinyinList[raw[k]].index
    requires GetWordPinyin(Pack16(ids), pyTable).Ok?
    ensures forall k :: 0 <= k < |raw| ==> pyTable.pinyinList[raw[k]].index < |pyTable.pinyinList|
    ensures GetWordPinyin(Pack16(ids), pyTable).value == Join(SecondTexts(raw, pyTable.pinyinList), Apostrophe)
  {
    var list := pyTable.pinyinList;
    GetWordPinyinOfPack16(ids, pyTable);
    PinyinsAtSpec(ids, list);
    assert PinyinsAt(ids, list).value == SecondTexts(raw, list);
  }

  /**
    * When every entry's stored index is its own position, the two lookups
    * agree with one: the group's pinyin resolves, and it is `get_word_pinyin`
    * applied to the index-table bytes of the group as they are on disk.
    */
  lemma GroupPinyinOneLookup(data: seq<Byte>, pyTable: PinyinTable)
    requires WordGroupOf(data, pyTable.pinyinList).Ok?
    requires forall i :: 0 <= i < |pyTable.pinyinList| ==> pyTable.pinyinList[i].index == i
    ensures |data| >= 4
    ensures
      var g := WordGroupOf(data, pyTable.pinyinList).value.0;
      var raw := RawIndices(data);
      && g.pyTable == raw
      && GroupPinyin(g, pyTable).Ok?
      && GroupPinyin(g, pyTable) == GetWordPinyin(Slice(data, 4, 4 + U16Le(data[2], data[3])), pyTable)
  {
    var list := pyTable.pinyinList;
    GroupPinyinTwoLookups(data, pyTable);
    var g := WordGroupOf(data, list).value.0;
    var raw := RawIndices(data);
    WordGroupIndices(data, list);
    assert g.pyTable == raw;
    GetWordPinyinSpec(raw, pyTable);
    Pack16OfPairs(Slice(data, 4, 4 + U16Le(data[2], data[3])));
  }

  /**
    * A table whose entries are not at their own positions: in a group of no
    * words with one raw position 0, that position names the entry reading
    * "a", whose stored index 1 names "b", so the group reads "b".
    */
  lemma GroupPinyinSecondLookup()
    ensures
      var list := [Pinyin(1, 2, [0x61]), Pinyin(0, 2, [0x62])];
      var data := [0, 0, 2, 0, 0, 0];
      && WordGroupOf(data, list).Ok?
      && RawIndices(data) == [0]
      && list[0].pinyin == [0x61]
      && GroupPinyin(WordGroupOf(data, list).value.0, PinyinTable(PinyinMagic, list)) == Ok([0x62])
  {
    var list := [Pinyin(1, 2, [0x61]), Pinyin(0, 2, [0x62])];
    var data: seq<Byte> := [0, 0, 2, 0, 0, 0];
    assert U16Le(data[2], data[3]) == 2;
    assert Slice(data, 4, 6) == [0, 0];
    assert Pairs([0, 0]) == [0];
    assert Unpack16(1, [0, 0]) == Ok([0]);
    var raw: seq<U16> := [0];
    assert raw[1..] == [];
    assert StoredIndices(raw[1..], list) == Ok([]);
    assert list[raw[0]].index == 1;
    assert [1] + [] == [1];
    assert StoredIndices(raw, list) == Ok([1]);
    assert IndexTable(data, list) == Ok([1]);
    assert Pack16([1]) == [1, 0];
    assert Pairs([1, 0]) == [1];
  }

  /**
    * The frequency of a word: 0 without extension bytes, otherwise the first
    * two extension bytes as a little-endian u16; a single extension byte
    * fails to unpack.
    */
  function WordCount(ext: seq<Byte>): (r: Result<U16>)
    ensures ext == [] ==> r == Ok(0)
    ensures |ext| == 1 ==> r == Err(StructError)
    ensures |ext| >= 2 ==> r.Ok? && Le16(r.value) == ext[..2]
  {
    if ext == [] then Ok(0)
    else
      var head := Slice(ext, 0, 2);
      if |head| != 2 then Err(StructError)
      else
        Le16OfU16Le(head[0], head[1]);
        Ok(U16Le(head[0], head[1]))
  }

  /** The records of one group's words, all with the group's pinyin; the first word whose count fails stops it. */
  function GroupInfos(words: seq<Word>, pinyin: Text): (r: Result<seq<WordInfo>>)
    ensures r.Err? ==> r.error == StructError
    ensures r.Ok? ==> |r.value| == |words|
  {
    if words == [] then Ok([])
    else
      var count := WordCount(words[0].ext);
      if count.Err? then Err(count.error)
      else Prepend([WordInfo(words[0].word, pinyin, count.value)], GroupInfos(words[1..], pinyin))
  }

  /**
    * A group's records exist exactly when no word has a single extension
    * byte, and the k-th record is the k-th word with the group's pinyin and
    * that word's count.
    */
  lemma {:induction false} GroupInfosSpec(words: seq<Word>, pinyin: Text)
    ensures GroupInfos(words, pinyin).Ok? <==> forall k :: 0 <= k < |words| ==> |words[k].ext| != 1
    ensures GroupInfos(words, pinyin).Ok? ==> forall k :: 0 <= k < |words| ==>
      var info := GroupInfos(words, pinyin).value[k];
      && info.word == words[k].word
      && info.pinyin == pinyin
      && WordCount(words[k].ext) == Ok(info.count)
  {
    if words != [] {
      GroupInfosSpec(words[1..], pinyin);
      if |words[0].ext| != 1 {
        var tail := GroupInfos(words[1..], pinyin);
        if tail.Ok? {
          forall k | 1 <= k < |words|
            ensures
              var info := GroupInfos(words, pinyin).value[k];
              && info.word == words[k].word
              && info.pinyin == pinyin
              && WordCount(words[k].ext) == Ok(info.count)
          {
            assert words[k] == words[1..][k - 1];
          }
        } else {
          var k :| 0 <= k < |words[1..]| && |words[1..][k].ext| == 1;
          assert |words[k + 1].ext| == 1;
        }
      }
    }
  }

  /** `get_word_info_list`, as a value: each group's pinyin, then one record per word, groups in table order. */
  function WordInfosOf(table: WordTable, pyTable: PinyinTable): (r: Result<seq<WordInfo>>)
    ensures r.Err? ==> r.error == IndexError || r.error == StructError
    ensures table == [] ==> r == Ok([])
  {
    if table == [] then Ok([])
    else
      var pinyin := GroupPinyin(table[0], pyTable);
      if pinyin.Err? then Err(pinyin.error)
      else Chain(GroupInfos(table[0].words, pinyin.value), WordInfosOf(table[1..], pyTable))
  }

  /** The records of two tables laid end to end are the records of the first followed by those of the second. */
  lemma {:induction false} WordInfosOfAppend(t1: WordTable, t2: WordTable, pyTable: PinyinTable)
    ensures WordInfosOf(t1 + t2, pyTable) == Chain(WordInfosOf(t1, pyTable), WordInfosOf(t2, pyTable))
  {
    if t1 == [] {
      assert t1 + t2 == t2;
      PrependNil(WordInfosOf(t2, pyTable));
    } else {
      assert (t1 + t2)[0] == t1[0];
      assert (t1 + t2)[1..] == t1[1..] + t2;
      WordInfosOfAppend(t1[1..], t2, pyTable);
      var pinyin := GroupPinyin(t1[0], pyTable);
      if pinyin.Ok? {
        ChainChain(GroupInfos(t1[0].words, pinyin.value), WordInfosOf(t1[1..], pyTable), WordInfosOf(t2, pyTable));
      }
    }
  }

  /** The number of words in a table. */
  function TotalWords(table: WordTable): nat
  {
    if table == [] then 0 else |table[0].words| + TotalWords(table[1..])
  }

  /** There is one record per word of the table. */
  lemma {:induction false} WordInfosOfCount(table: WordTable, pyTable: PinyinTable)
    requires WordInfosOf(table, pyTable).Ok?
    ensures |WordInfosOf(table, pyTable).value| == TotalWords(table)
  {
    if table != [] {
      WordInfosOfCount(table[1..], pyTable);
    }
  }

  /** A group whose pinyin resolves and none of whose words has a one-byte extension. */
  predicate Convertible(g: WordGroup, pyTable: PinyinTable)
  {
    GroupPinyin(g, pyTable).Ok? && forall j :: 0 <= j < |g.words| ==> |g.words[j].ext| != 1
  }

  /**
    * The records exist exactly when every group's pinyin resolves and no
    * word has a single extension byte.
    */
  lemma {:induction false} WordInfosOfOk(table: WordTable, pyTable: PinyinTable)
    ensures WordInfosOf(table, pyTable).Ok? <==> forall i :: 0 <= i < |table| ==> Convertible(table[i], pyTable)
  {
    if table != [] {
      WordInfosOfOk(table[1..], pyTable);
      var pinyin := GroupPinyin(table[0], pyTable);
      if pinyin.Ok? {
        GroupInfosSpec(table[0].words, pinyin.value);
      }
      assert forall i :: 1 <= i < |table| ==> table[i] == table[1..][i - 1];
    }
  }

  /** One group of `WordInfosOf`: a failing pinyin stops the list, otherwise the group's records come first. */
  lemma WordInfosOfStep(table: WordTable, pyTable: PinyinTable, i: nat)
    requires i < |table|
    ensures GroupPinyin(table[i], pyTable).Err? ==> WordInfosOf(table[i..], pyTable) == Err(GroupPinyin(table[i], pyTable).error)
    ensures GroupPinyin(table[i], pyTable).Ok? ==>
      WordInfosOf(table[i..], pyTable) == Chain(GroupInfos(table[i].words, GroupPinyin(table[i], pyTable).value), WordInfosOf(table[i + 1..], pyTable))
  {
    assert table[i..][0] == table[i];
    assert table[i..][1..] == table[i + 1..];
  }

  /** One word of `GroupInfos`: a failing count stops the list, otherwise the word's record comes first. */
  lemma GroupInfosStep(words: seq<Word>, pinyin: Text, j: nat)
    requires j < |words|
    ensures WordCount(words[j].ext).Err? ==> GroupInfos(words[j..], pinyin) == Err(WordCount(words[j].ext).error)
    ensures WordCount(words[j].ext).Ok? ==>
      GroupInfos(words[j..], pinyin) == Prepend([WordInfo(words[j].word, pinyin, WordCount(words[j].ext).value)], GroupInfos(words[j + 1..], pinyin))
  {
    assert words[j..][0] == words[j];
    assert words[j..][1..] == words[j + 1..];
  }

  /** `Scel.get_word_info_list`: for each group its pinyin, then a record per word appended in turn. */
  method GetWordInfoList(scel: Scel) returns (r: Result<seq<WordInfo>>)
    ensures r == WordInfosOf(scel.wordTable, scel.pinyinTable)
  {
    var table, pyTable := scel.wordTable, scel.pinyinTable;
    ghost var whole := WordInfosOf(table, pyTable);
    var infos: seq<WordInfo> := [];
    PrependNil(whole);
    for i := 0 to |table|
      invariant whole == Prepend(infos, WordInfosOf(table[i..], pyTable))
    {
      var group := table[i];
      var pinyin := GroupPinyin(group, pyTable);
      WordInfosOfStep(table, pyTable, i);
      if pinyin.Err? {
        return Err(pinyin.error);
      }
      ghost var later := WordInfosOf(table[i + 1..], pyTable);
      for j := 0 to |group.words|
        invariant whole == Prepend(infos, Chain(GroupInfos(group.words[j..], pinyin.value), later))
      {
        var word := group.words[j];
        var count := WordCount(word.ext);
        GroupInfosStep(group.words, pinyin.value, j);
        if count.Err? {
          return Err(count.error);
        }
        var info := WordInfo(word.word, pinyin.value, count.value);
        ghost var next := Chain(GroupInfos(group.words[j + 1..], pinyin.value), later);
        ChainPrepend([info], GroupInfos(group.words[j + 1..], pinyin.value), later);
        PrependPrepend(infos, [info], next);
        infos := infos + [info];
      }
      assert group.words[|group.words|..] == [];
      PrependNil(later);
    }
    assert infos + [] == infos;
    return Ok(infos);
  }

  /** `str(info)`: the word, its pinyin and its count separated by single spaces (`WordInfo.__repr__`). */
  function Line(info: WordInfo): (r: Text)
    ensures |r| == |info.word| + |info.pinyin| + |Decimal(info.count)| + 2
    ensures Newline !in info.word && Newline !in info.pinyin ==> Newline !in r
  {
    info.word + [Space] + info.pinyin + [Space] + Decimal(info.count)
  }

  /** Reads one ibus line back: three space-separated fields, the last a decimal count below 65536. */
  function ReadLine(line: Text): Option<WordInfo>
  {
    var fields := Split(line, Space);
    if |fields| != 3 || fields[2] == [] then None
    else if exists k :: 0 <= k < |fields[2]| && !IsDigit(fields[2][k]) then None
    else if DigitsValue(fields[2]) >= 0x1_0000 then None
    else Some(WordInfo(fields[0], fields[1], DigitsValue(fields[2])))
  }

  /** A line splits at spaces into the word, the pinyin and the digits of the count when neither text holds a space. */
  lemma LineFields(info: WordInfo)
    requires Space !in info.word && Space !in info.pinyin
    ensures Split(Line(info), Space) == [info.word, info.pinyin, Decimal(info.count)]
  {
    var digits := Decimal(info.count);
    var rest := info.pinyin + [Space] + digits;
    assert Space !in digits;
    assert Line(info) == info.word + [Space] + rest;
    SplitAt(info.word, Space, rest);
    SplitAt(info.pinyin, Space, digits);
  }

  /** A record whose word and pinyin hold no space is recovered from its line. */
  lemma LineRoundTrip(info: WordInfo)
    requires Space !in info.word && Space !in info.pinyin
    ensures ReadLine(Line(info)) == Some(info)
  {
    LineFields(info);
    DigitsValueOfDecimal(info.count);
  }

  /** The lines of the records, in order. */
  function Lines(infos: seq<WordInfo>): seq<Text>
  {
    seq(|infos|, k requires 0 <= k < |infos| => Line(infos[k]))
  }

  /** `Scel.to_ibus` on a record list: the lines joined by newlines, plus a final newline. */
  function IbusText(infos: seq<WordInfo>): (r: Text)
    ensures |r| >= 1 && r[|r| - 1] == Newline
  {
    Join(Lines(infos), Newline) + [Newline]
  }

  /**
    * The ibus text is a lone newline for no records; when no word or pinyin holds a space or a newline, the text
    * before the final newline splits into one line per record, and each
    * line reads back as its record.
    */
  lemma IbusTextRoundTrip(infos: seq<WordInfo>)
    ensures infos == [] ==> IbusText(infos) == [Newline]
    ensures infos != [] && (forall k :: 0 <= k < |infos| ==>
        Space !in infos[k].word && Space !in infos[k].pinyin && Newline !in infos[k].word && Newline !in infos[k].pinyin) ==>
      var text := IbusText(infos);
      var lines := Split(text[..|text| - 1], Newline);
      && |lines| == |infos|
      && forall k :: 0 <= k < |infos| ==> ReadLine(lines[k]) == Some(infos[k])
  {
    var text := IbusText(infos);
    var body := Join(Lines(infos), Newline);
    assert text[..|text| - 1] == body;
    if infos != [] && forall k :: 0 <= k < |infos| ==>
        Space !in infos[k].word && Space !in infos[k].pinyin && Newline !in infos[k].word && Newline !in infos[k].pinyin {
      forall k | 0 <= k < |infos|
        ensures Newline !in Lines(infos)[k]
      {
        var digits := Decimal(infos[k].count);
        assert Newline !in digits;
        assert Lines(infos)[k] == infos[k].word + [Space] + infos[k].pinyin + [Space] + digits;
      }
      SplitOfJoin(Lines(infos), Newline);
      forall k | 0 <= k < |infos|
        ensures ReadLine(Lines(infos)[k]) == Some(infos[k])
      {
        LineRoundTrip(infos[k]);
      }
    }
  }

  /** A group whose single index is 0 reads the text of the first pinyin entry. */
  lemma OneIndexPinyin(g: WordGroup, pyTable: PinyinTable)
    requires g.pyTable == [0] && pyTable.pinyinList != []
    ensures GroupPinyin(g, pyTable) == Ok(pyTable.pinyinList[0].pinyin)
  {
    GetWordPinyinOfPack16(g.pyTable, pyTable);
    PinyinsAtSpec(g.pyTable, pyTable.pinyinList);
  }

  /** One group of one word without extension bytes yields one record: the word, the group's pinyin and the count 0. */
  lemma OneWordInfos(g: WordGroup, pyTable: PinyinTable)
    requires GroupPinyin(g, pyTable).Ok?
    requires |g.words| == 1 && g.words[0].ext == []
    ensures WordInfosOf([g], pyTable) == Ok([WordInfo(g.words[0].word, GroupPinyin(g, pyTable).value, 0)])
  {
    var a := GroupPinyin(g, pyTable).value;
    var info := WordInfo(g.words[0].word, a, 0);
    assert GroupInfos(g.words, a) == Ok([info]) by {
      GroupInfosStep(g.words, a, 0);
      assert g.words[0..] == g.words && g.words[1..] == [];
      assert [info] + [] == [info];
    }
    var table := [g];
    WordInfosOfStep(table, pyTable, 0);
    assert table[0..] == table && table[1..] == [];
    assert [info] + [] == [info];
  }

  /** A single record renders as its word, a space, its pinyin, a space, the count "0" and a newline. */
  lemma OneWordText(info: WordInfo)
    requires info.count == 0
    ensures IbusText([info]) == info.word + [Space] + info.pinyin + [Space, Zero, Newline]
  {
    var lines := Lines([info]);
    assert |lines| == 1 && lines[0] == Line(info);
    assert lines == [Line(info)];
    assert Decimal(0) == [Zero];
  }

  /**
    * A dictionary of one group holding one word without extension bytes,
    * whose single index is 0, renders as one line: the word, the text of the
    * first pinyin entry and the count 0.
    */
  lemma IbusOfOneWord(scel: Scel)
    requires |scel.wordTable| == 1 && scel.wordTable[0].pyTable == [0] && scel.pinyinTable.pinyinList != []
    requires |scel.wordTable[0].words| == 1 && scel.wordTable[0].words[0].ext == []
    ensures IbusOf(scel) == Ok(scel.wordTable[0].words[0].word + [Space] + scel.pinyinTable.pinyinList[0].pinyin + [Space, Zero, Newline])
  {
    var g := scel.wordTable[0];
    assert scel.wordTable == [g];
    OneIndexPinyin(g, scel.pinyinTable);
    OneWordInfos(g, scel.pinyinTable);
    OneWordText(WordInfo(g.words[0].word, scel.pinyinTable.pinyinList[0].pinyin, 0));
  }

  /** `Scel.to_ibus`, as a value. */
  function IbusOf(scel: Scel): (r: Result<Text>)
    ensures r.Ok? ==> |r.value| >= 1 && r.value[|r.value| - 1] == Newline
  {
    var infos := WordInfosOf(scel.wordTable, scel.pinyinTable);
    if infos.Err? then Err(infos.error) else Ok(IbusText(infos.value))
  }

  /** `Scel.to_ibus`: the record list, one line each, newline-terminated. */
  method ToIbus(scel: Scel) returns (r: Result<Text>)
    ensures r == IbusOf(scel)
  {
    var infos := GetWordInfoList(scel);
    if infos.Err? {
      return Err(infos.error);
    }
    return Ok(IbusText(infos.value));
  }
}
