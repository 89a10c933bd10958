/** `parse_word`, `parse_word_group` and `parse_word_table`: the word-group table after WORDGROUP_OFFSET. */
module Words {
  import opened Results
  import opened Bytes
  import opened Utf16
  import opened ScelTypes

  /** The bytes a word record occupies on disk. */
  function WordBytes(w: Word): seq<Byte>
  {
    Le16(w.wordLen) + Pack16(w.word) + Le16(w.extLen) + w.ext
  }

  function WordsBytes(ws: seq<Word>): seq<Byte>
  {
    if ws == [] then [] else WordBytes(ws[0]) + WordsBytes(ws[1..])
  }

  /** A word record whose extension holds all the bytes its `ext_len` declares. */
  predicate WholeExt(w: Word)
  {
    |w.ext| == w.extLen
  }

  /** A buffer that starts with a whole word record is that record's bytes and then the rest. */
  lemma WordLayout(data: seq<Byte>, word: Text)
    requires 2 <= |data| && 4 + U16Le(data[0], data[1]) <= |data|
    requires Pack16(word) == Slice(data, 2, 2 + U16Le(data[0], data[1]))
    ensures
      var wordLen: nat := U16Le(data[0], data[1]);
      var extLen: nat := U16Le(data[2 + wordLen], data[3 + wordLen]);
      data == WordBytes(Word(wordLen, word, extLen, Slice(data, 4 + wordLen, 4 + wordLen + extLen)))
              + Slice(data, 4 + wordLen + extLen, |data|)
  {
    var wordLen: nat := U16Le(data[0], data[1]);
    var extLen: nat := U16Le(data[2 + wordLen], data[3 + wordLen]);
    var extEnd := 4 + wordLen + extLen;
    Le16OfU16Le(data[0], data[1]);
    Le16OfU16Le(data[2 + wordLen], data[3 + wordLen]);
    TwoAt(data, 0);
    TwoAt(data, 2 + wordLen);
    Cut4(data, 2, 2 + wordLen, 4 + wordLen);
    SliceCut(data, 4 + wordLen, extEnd);
    Associative(Le16(wordLen) + Pack16(word) + Le16(extLen), Slice(data, 4 + wordLen, extEnd), Slice(data, extEnd, |data|));
  }

  /**
    * `parse_word`: word length, UTF-16LE word, extension length, extension.
    * The word and the extension-length field must be there in full; an
    * extension running past the end is clamped, and the rest is then empty.
    */
  function ParseWord(data: seq<Byte>): (r: Result<(Word, seq<Byte>)>)
    ensures |data| < 2 ==> r == Err(StructError)
    ensures 2 <= |data| < 4 + U16Le(data[0], data[1]) ==> r.Err?
    ensures r.Ok? <==>
      2 <= |data| && 4 + U16Le(data[0], data[1]) <= |data| && Decodable(Slice(data, 2, 2 + U16Le(data[0], data[1])))
    ensures r.Ok? ==>
      var (w, rest) := r.value;
      && w.wordLen == U16Le(data[0], data[1])
      && 2 * |w.word| == w.wordLen
      && 4 + w.wordLen <= |data|
      && w.extLen == U16Le(data[2 + w.wordLen], data[3 + w.wordLen])
      && |w.ext| <= w.extLen
      && (4 + w.wordLen + w.extLen <= |data| ==> WholeExt(w))
      && (rest != [] ==> WholeExt(w))
      && |rest| + 4 <= |data|
  {
    if |data| < 2 then Err(StructError)
    else
      var wordLen: nat := U16Le(data[0], data[1]);
      var decoded := Decode(Slice(data, 2, 2 + wordLen));
      if decoded.Err? then Err(decoded.error)
      else
        var extLenBytes := Slice(data, 2 + wordLen, 4 + wordLen);
        if |extLenBytes| != 2 then Err(StructError)
        else
          var extLen: nat := U16Le(extLenBytes[0], extLenBytes[1]);
          var ext := Slice(data, 4 + wordLen, 4 + wordLen + extLen);
          var rest := Slice(data, 4 + wordLen + extLen, |data|);
          Ok((Word(wordLen, decoded.value, extLen, ext), rest))
  }

  /** `same` word records read one after another (the `for` loop of `parse_word_group`). */
  function ParseWords(data: seq<Byte>, n: nat): (r: Result<(seq<Word>, seq<Byte>)>)
    ensures r.Ok? ==> |r.value.0| == n && |r.value.1| <= |data|
    decreases n
  {
    if n == 0 then Ok(([], data))
    else
      var first := ParseWord(data);
      if first.Err? then Err(first.error)
      else
        var (w, rest) := first.value;
        var r := PrependFirst([w], ParseWords(rest, n - 1));
        assert r.Ok? ==> r.value.0[1..] == ParseWords(rest, n - 1).value.0;
        r
  }

  /** A parsed word record accounts for every byte it consumed. */
  lemma ParseWordBytes(data: seq<Byte>, w: Word, rest: seq<Byte>)
    requires ParseWord(data) == Ok((w, rest))
    ensures data == WordBytes(w) + rest
  {
    DecodedBytes(Slice(data, 2, 2 + U16Le(data[0], data[1])));
    WordLayout(data, w.word);
  }

  /** One step of `ParseWords`: the first record, then the other `n - 1`. */
  lemma ParseWordsStep(data: seq<Byte>, n: nat, ws: seq<Word>, rest: seq<Byte>) returns (mid: seq<Byte>)
    requires n > 0 && ParseWords(data, n) == Ok((ws, rest))
    ensures ws != [] && ParseWord(data) == Ok((ws[0], mid))
    ensures ParseWords(mid, n - 1) == Ok((ws[1..], rest))
  {
    mid := ParseWord(data).value.1;
  }

  /** Parsed word records lie end to end, followed by the rest. */
  lemma {:induction false} ParseWordsBytes(data: seq<Byte>, n: nat, ws: seq<Word>, rest: seq<Byte>)
    requires ParseWords(data, n) == Ok((ws, rest))
    ensures data == WordsBytes(ws) + rest
    decreases n
  {
    if n > 0 {
      var mid := ParseWordsStep(data, n, ws, rest);
      ParseWordsBytes(mid, n - 1, ws[1..], rest);
      ParseWordBytes(data, ws[0], mid);
      Regroup(data, WordBytes(ws[0]), mid, WordsBytes(ws[1..]), rest);
    }
  }

  /** Encoding a well-formed word record and parsing it back gives the record and the bytes after it. */
  lemma ParseWordOfBytes(w: Word, rest: seq<Byte>)
    requires w.wordLen == 2 * |w.word| && WellFormed(w.word) && WholeExt(w)
    ensures ParseWord(WordBytes(w) + rest) == Ok((w, rest))
  {
    WordBytesParts(w, rest);
    ParseWordOfParts(WordBytes(w) + rest, w, rest);
  }

  /** The fields of an encoded word record, recovered by slicing it. */
  lemma WordBytesParts(w: Word, rest: seq<Byte>)
    requires w.wordLen == 2 * |w.word| && WholeExt(w)
    ensures
      var data := WordBytes(w) + rest;
      var wordLen: nat := w.wordLen;
      var extLen: nat := w.extLen;
      && |data| >= 2 && U16Le(data[0], data[1]) == w.wordLen
      && Slice(data, 2, 2 + wordLen) == Pack16(w.word)
      && Slice(data, 2 + wordLen, 4 + wordLen) == Le16(w.extLen)
      && Slice(data, 4 + wordLen, 4 + wordLen + extLen) == w.ext
      && Slice(data, 4 + wordLen + extLen, |data|) == rest
  {
    FiveParts(Le16(w.wordLen), Pack16(w.word), Le16(w.extLen), w.ext, rest);
  }

  /** A buffer whose slices hold the fields of a well-formed record parses as that record. */
  lemma ParseWordOfParts(data: seq<Byte>, w: Word, rest: seq<Byte>)
    requires WellFormed(w.word)
    requires |data| >= 2 && U16Le(data[0], data[1]) == w.wordLen
    requires Slice(data, 2, 2 + w.wordLen) == Pack16(w.word)
    requires Slice(data, 2 + w.wordLen, 4 + w.wordLen) == Le16(w.extLen)
    requires Slice(data, 4 + w.wordLen, 4 + w.wordLen + w.extLen) == w.ext
    requires Slice(data, 4 + w.wordLen + w.extLen, |data|) == rest
    ensures ParseWord(data) == Ok((w, rest))
  {
    DecodeOfPack16(w.word);
    var wordLen: nat := U16Le(data[0], data[1]);
    assert Decode(Slice(data, 2, 2 + wordLen)) == Ok(w.word);
    var extLenBytes := Slice(data, 2 + wordLen, 4 + wordLen);
    assert |extLenBytes| == 2 && U16Le(extLenBytes[0], extLenBytes[1]) == w.extLen;
  }

  /** The five consecutive parts of a concatenation, each recovered by slicing. */
  lemma FiveParts<T>(a: seq<T>, b: seq<T>, c: seq<T>, d: seq<T>, e: seq<T>)
    ensures
      var s := a + b + c + d + e;
      var i, j, k, l := |a|, |a| + |b|, |a| + |b| + |c|, |a| + |b| + |c| + |d|;
      && s[..i] == a && s[i..j] == b && s[j..k] == c && s[k..l] == d && s[l..] == e
  {
  }

  /** A well-formed record in front of `n - 1` readable records makes `n` readable records. */
  lemma ParseWordsCons(data: seq<Byte>, w: Word, tail: seq<Byte>, n: nat, ws: seq<Word>, rest: seq<Byte>)
    requires w.wordLen == 2 * |w.word| && WellFormed(w.word) && WholeExt(w)
    requires data == WordBytes(w) + tail
    requires n > 0 && ParseWords(tail, n - 1) == Ok((ws, rest))
    ensures ParseWords(data, n) == Ok(([w] + ws, rest))
  {
    ParseWordOfBytes(w, tail);
  }

  /** Encoding well-formed word records and parsing that many back gives the records and the bytes after them. */
  lemma {:induction false} ParseWordsOfBytes(ws: seq<Word>, rest: seq<Byte>)
    requires forall i :: 0 <= i < |ws| ==> ws[i].wordLen == 2 * |ws[i].word| && WellFormed(ws[i].word) && WholeExt(ws[i])
    ensures ParseWords(WordsBytes(ws) + rest, |ws|) == Ok((ws, rest))
  {
    if ws != [] {
      assert [ws[0]] + ws[1..] == ws;
      assert forall i :: 0 <= i < |ws[1..]| ==> ws[1..][i] == ws[i + 1];
      var tail := WordsBytes(ws[1..]) + rest;
      Associative(WordBytes(ws[0]), WordsBytes(ws[1..]), rest);
      ParseWordsOfBytes(ws[1..], rest);
      ParseWordsCons(WordsBytes(ws) + rest, ws[0], tail, |ws|, ws[1..], rest);
    } else {
      assert WordsBytes(ws) + rest == rest;
    }
  }

  /** A word followed by another one has its whole extension. */
  lemma FollowedWholeExt(data: seq<Byte>, w: Word, mid: seq<Byte>)
    requires ParseWord(data) == Ok((w, mid)) && ParseWord(mid).Ok?
    ensures WholeExt(w)
  {
  }

  /** Only the last of the words read can have an extension cut short by the end of the buffer. */
  lemma {:induction false} ParseWordsWholeExt(data: seq<Byte>, n: nat, ws: seq<Word>, rest: seq<Byte>)
    requires ParseWords(data, n) == Ok((ws, rest))
    ensures forall i :: 0 <= i < n - 1 ==> WholeExt(ws[i])
    decreases n
  {
    if n > 1 {
      var mid := ParseWordsStep(data, n, ws, rest);
      var _ := ParseWordsStep(mid, n - 1, ws[1..], rest);
      FollowedWholeExt(data, ws[0], mid);
      ParseWordsWholeExt(mid, n - 1, ws[1..], rest);
      forall i | 1 <= i < n - 1
        ensures WholeExt(ws[i])
      {
        assert ws[i] == ws[1..][i - 1];
      }
    }
  }

  /** The raw pinyin positions of a group: its index table read as u16 values. */
  function RawIndices(data: seq<Byte>): seq<U16>
    requires |data| >= 4
  {
    Pairs(Slice(data, 4, 4 + U16Le(data[2], data[3])))
  }

  /** The index table of a group holds a whole number of u16 values. */
  predicate IndexTableWhole(data: seq<Byte>)
    requires |data| >= 4
  {
    var pyTableLen: nat := U16Le(data[2], data[3]);
    |Slice(data, 4, 4 + pyTableLen)| == 2 * (pyTableLen / 2)
  }

  /**
    * `[pinyin_list[i].index for i in raw]`: the stored `index` of the entry at
    * each raw position, failing with IndexError at a position past the end.
    */
  function StoredIndices(raw: seq<U16>, pinyinList: seq<Pinyin>): (r: Result<seq<U16>>)
    ensures r.Err? ==> r.error == IndexError
    ensures r.Ok? ==> |r.value| == |raw|
  {
    if raw == [] then Ok([])
    else if raw[0] >= |pinyinList| then Err(IndexError)
    else Prepend([pinyinList[raw[0]].index], StoredIndices(raw[1..], pinyinList))
  }

  /** The comprehension succeeds exactly when every position is in range, and then keeps each entry's `index`. */
  lemma {:induction false} StoredIndicesSpec(raw: seq<U16>, pinyinList: seq<Pinyin>)
    ensures StoredIndices(raw, pinyinList).Ok? <==> forall k :: 0 <= k < |raw| ==> raw[k] < |pinyinList|
    ensures StoredIndices(raw, pinyinList).Ok? ==>
      forall k :: 0 <= k < |raw| ==> StoredIndices(raw, pinyinList).value[k] == pinyinList[raw[k]].index
  {
    if raw != [] {
      StoredIndicesSpec(raw[1..], pinyinList);
      if raw[0] < |pinyinList| {
        var tail := StoredIndices(raw[1..], pinyinList);
        if tail.Ok? {
          forall k | 1 <= k < |raw|
            ensures StoredIndices(raw, pinyinList).value[k] == pinyinList[raw[k]].index
          {
            assert raw[k] == raw[1..][k - 1];
          }
        } else {
          var k :| 0 <= k < |raw[1..]| && raw[1..][k] >= |pinyinList|;
          assert raw[k + 1] >= |pinyinList|;
        }
      }
    }
  }

  lemma RawIndicesOfPack16(data: seq<Byte>, raw: seq<U16>)
    requires |data| >= 4
    requires Pack16(raw) == Slice(data, 4, 4 + U16Le(data[2], data[3]))
    ensures raw == RawIndices(data)
  {
    PairsOfPack16(raw);
  }

  /**
    * The index table of `parse_word_group`: its raw u16 values (a table of
    * odd length fails to unpack), resolved by `StoredIndices`.
    */
  function IndexTable(data: seq<Byte>, pinyinList: seq<Pinyin>): (r: Result<seq<U16>>)
    requires |data| >= 4
    ensures !IndexTableWhole(data) ==> r == Err(StructError)
    ensures r.Ok? ==> |r.value| == U16Le(data[2], data[3]) / 2
  {
    var pyTableLen: nat := U16Le(data[2], data[3]);
    var raw := Unpack16(pyTableLen / 2, Slice(data, 4, 4 + pyTableLen));
    if raw.Err? then Err(raw.error) else StoredIndices(raw.value, pinyinList)
  }

  /**
    * Each raw index is a position into the pinyin list: a whole index table
    * resolves exactly when every position is in range, it then keeps the
    * stored `index` of the entry at each position, and otherwise it fails
    * with IndexError.
    */
  lemma WordGroupIndices(data: seq<Byte>, pinyinList: seq<Pinyin>)
    requires |data| >= 4 && IndexTableWhole(data)
    ensures IndexTable(data, pinyinList).Ok? <==>
      forall k :: 0 <= k < |RawIndices(data)| ==> RawIndices(data)[k] < |pinyinList|
    ensures IndexTable(data, pinyinList).Err? ==> IndexTable(data, pinyinList).error == IndexError
    ensures IndexTable(data, pinyinList).Ok? ==>
      var raw := RawIndices(data);
      && |IndexTable(data, pinyinList).value| == |raw|
      && forall k :: 0 <= k < |raw| ==> IndexTable(data, pinyinList).value[k] == pinyinList[raw[k]].index
  {
    var pyTableLen: nat := U16Le(data[2], data[3]);
    var raw := Unpack16(pyTableLen / 2, Slice(data, 4, 4 + pyTableLen)).value;
    UnpackedBytes(pyTableLen / 2, Slice(data, 4, 4 + pyTableLen));
    RawIndicesOfPack16(data, raw);
    StoredIndicesSpec(raw, pinyinList);
  }

  /**
    * `parse_word_group`, as a value: the group header, the index table, then
    * `same` word records.
    */
  function WordGroupOf(data: seq<Byte>, pinyinList: seq<Pinyin>): (r: Result<(WordGroup, seq<Byte>)>)
    ensures r.Ok? ==> |r.value.1| + 4 <= |data|
  {
    if |data| < 4 then Err(StructError)
    else GroupOf(data, IndexTable(data, pinyinList), ParseWords(GroupBody(data), U16Le(data[0], data[1])))
  }

  /** The bytes after a group's index table: its word records and then the rest of the table. */
  function GroupBody(data: seq<Byte>): (r: seq<Byte>)
    requires |data| >= 4
    ensures |r| + 4 <= |data|
  {
    Slice(data, 4 + U16Le(data[2], data[3]), |data|)
  }

  /** A group from its header, its resolved index table and its words, the first failure winning. */
  function GroupOf(data: seq<Byte>, table: Result<seq<U16>>, words: Result<(seq<Word>, seq<Byte>)>): (r: Result<(WordGroup, seq<Byte>)>)
    requires |data| >= 4
    requires words.Ok? ==> |words.value.1| + 4 <= |data|
    ensures r.Ok? ==> |r.value.1| + 4 <= |data|
  {
    if table.Err? then Err(table.error)
    else if words.Err? then Err(words.error)
    else Ok((WordGroup(U16Le(data[0], data[1]), U16Le(data[2], data[3]), table.value, words.value.0), words.value.1))
  }

  /** The words of a parsed group are `ParseWords` on the bytes after its index table. */
  lemma WordGroupWords(data: seq<Byte>, pinyinList: seq<Pinyin>)
    requires WordGroupOf(data, pinyinList).Ok?
    ensures
      var (g, rest) := WordGroupOf(data, pinyinList).value;
      ParseWords(GroupBody(data), g.same) == Ok((g.words, rest))
  {
  }

  /**
    * A parsed group accounts for every byte it consumed: its header, the raw
    * index table and its word records, followed by the rest of the table.
    */
  lemma WordGroupBytes(data: seq<Byte>, pinyinList: seq<Pinyin>)
    requires WordGroupOf(data, pinyinList).Ok?
    ensures
      var (g, rest) := WordGroupOf(data, pinyinList).value;
      data == Le16(g.same) + Le16(g.pyTableLen) + Pack16(RawIndices(data)) + WordsBytes(g.words) + rest
  {
    var (g, rest) := WordGroupOf(data, pinyinList).value;
    var pyTableLen: nat := g.pyTableLen;
    var body := GroupBody(data);
    WordGroupWords(data, pinyinList);
    ParseWordsBytes(body, g.same, g.words, rest);
    var raw := Unpack16(pyTableLen / 2, Slice(data, 4, 4 + pyTableLen)).value;
    UnpackedBytes(pyTableLen / 2, Slice(data, 4, 4 + pyTableLen));
    RawIndicesOfPack16(data, raw);
    HeadedBytes(data, 4 + pyTableLen);
    Regroup(data, Le16(g.same) + Le16(g.pyTableLen) + Pack16(raw), body, WordsBytes(g.words), rest);
  }

  /** The `for` loop of `parse_word_group`: `same` word records read in turn. */
  method ReadWords(body: seq<Byte>, same: nat) returns (r: Result<(seq<Word>, seq<Byte>)>)
    ensures r == ParseWords(body, same)
  {
    var words: seq<Word> := [];
    var rest := body;
    PrependFirstNil(ParseWords(rest, same));
    for i := 0 to same
      invariant ParseWords(body, same) == PrependFirst(words, ParseWords(rest, same - i))
    {
      var step := ParseWord(rest);
      if step.Err? {
        return Err(step.error);
      }
      var (w, rest') := step.value;
      assert ParseWords(rest, same - i) == PrependFirst([w], ParseWords(rest', same - i - 1));
      PrependFirstPrependFirst(words, [w], ParseWords(rest', same - i - 1));
      words := words + [w];
      rest := rest';
    }
    assert words + [] == words;
    return Ok((words, rest));
  }

  /** `parse_word_group`: the header, the index table by comprehension, then the words by a counted loop. */
  method ParseWordGroup(data: seq<Byte>, pyTable: PinyinTable) returns (r: Result<(WordGroup, seq<Byte>)>)
    ensures r == WordGroupOf(data, pyTable.pinyinList)
  {
    if |data| < 4 {
      return Err(StructError);
    }
    var indices := IndexTable(data, pyTable.pinyinList);
    if indices.Err? {
      return Err(indices.error);
    }
    var same: nat := U16Le(data[0], data[1]);
    var words := ReadWords(GroupBody(data), same);
    return GroupOf(data, indices, words);
  }

  /** The groups of the word table, read until no byte is left (`parse_word_table`). */
  function WordGroups(data: seq<Byte>, pinyinList: seq<Pinyin>): (r: Result<WordTable>)
    ensures r.Ok? ==> forall i :: 0 <= i < |r.value| ==>
      |r.value[i].words| == r.value[i].same && |r.value[i].pyTable| == r.value[i].pyTableLen / 2
    ensures r.Ok? ==> 4 * |r.value| <= |data|
    decreases |data|
  {
    if data == [] then Ok([])
    else
      var first := WordGroupOf(data, pinyinList);
      if first.Err? then Err(first.error)
      else
        var step := first.value;
        var r := Prepend([step.0], WordGroups(step.1, pinyinList));
        assert r.Ok? ==> r.value[1..] == WordGroups(step.1, pinyinList).value;
        r
  }

  /** The bytes a group occupies on disk: its header, its raw index table and its word records. */
  function GroupBytes(g: WordGroup, raw: seq<U16>): seq<Byte>
  {
    Le16(g.same) + Le16(g.pyTableLen) + Pack16(raw) + WordsBytes(g.words)
  }

  /** The bytes of groups laid end to end, each with its raw index table. */
  function GroupsBytes(gs: seq<WordGroup>, raws: seq<seq<U16>>): seq<Byte>
    requires |gs| == |raws|
  {
    if gs == [] then [] else GroupBytes(gs[0], raws[0]) + GroupsBytes(gs[1..], raws[1..])
  }

  /** The resolved index table of a parsed group is its raw table looked up in the pinyin list. */
  lemma WordGroupRaw(data: seq<Byte>, pinyinList: seq<Pinyin>)
    requires WordGroupOf(data, pinyinList).Ok?
    ensures |data| >= 4
    ensures StoredIndices(RawIndices(data), pinyinList) == Ok(WordGroupOf(data, pinyinList).value.0.pyTable)
  {
  }

  /** One step of `WordGroups`: the first group, then the groups of the rest. */
  lemma WordGroupsStep(data: seq<Byte>, pinyinList: seq<Pinyin>) returns (rest: seq<Byte>)
    requires data != [] && WordGroups(data, pinyinList).Ok?
    ensures WordGroupOf(data, pinyinList).Ok? && WordGroupOf(data, pinyinList).value.1 == rest
    ensures WordGroups(rest, pinyinList).Ok?
    ensures WordGroups(data, pinyinList).value == [WordGroupOf(data, pinyinList).value.0] + WordGroups(rest, pinyinList).value
  {
    rest := WordGroupOf(data, pinyinList).value.1;
  }

  /**
    * The word-table region is exactly its groups' bytes, in file order: each
    * group's header, raw index table and word records, and nothing else. Each
    * raw table resolves to the group's stored index table.
    */
  lemma {:induction false} WordGroupsBytes(data: seq<Byte>, pinyinList: seq<Pinyin>) returns (raws: seq<seq<U16>>)
    requires WordGroups(data, pinyinList).Ok?
    ensures |raws| == |WordGroups(data, pinyinList).value|
    ensures data == GroupsBytes(WordGroups(data, pinyinList).value, raws)
    ensures forall i :: 0 <= i < |raws| ==>
      StoredIndices(raws[i], pinyinList) == Ok(WordGroups(data, pinyinList).value[i].pyTable)
    decreases |data|
  {
    if data == [] {
      raws := [];
    } else {
      var rest := WordGroupsStep(data, pinyinList);
      var gs := WordGroups(data, pinyinList).value;
      var tailRaws := WordGroupsBytes(rest, pinyinList);
      WordGroupBytes(data, pinyinList);
      WordGroupRaw(data, pinyinList);
      raws := [RawIndices(data)] + tailRaws;
      assert gs[1..] == WordGroups(rest, pinyinList).value;
      assert raws[1..] == tailRaws;
      forall i | 1 <= i < |raws|
        ensures StoredIndices(raws[i], pinyinList) == Ok(gs[i].pyTable)
      {
        assert gs[i] == gs[1..][i - 1] && raws[i] == tailRaws[i - 1];
      }
    }
  }

  /** `parse_word_table`: consumes the word-group region group by group. */
  method ParseWordTable(data: seq<Byte>, pyTable: PinyinTable) returns (r: Result<WordTable>)
    ensures r == WordGroups(data, pyTable.pinyinList)
  {
    var wordTable: WordTable := [];
    var rest := data;
    PrependNil(WordGroups(rest, pyTable.pinyinList));
    while rest != []
      invariant WordGroups(data, pyTable.pinyinList) == Prepend(wordTable, WordGroups(rest, pyTable.pinyinList))
      decreases |rest|
    {
      var step := ParseWordGroup(rest, pyTable);
      if step.Err? {
        return Err(step.error);
      }
      var (g, rest') := step.value;
      assert WordGroups(rest, pyTable.pinyinList) == Prepend([g], WordGroups(rest', pyTable.pinyinList));
      PrependPrepend(wordTable, [g], WordGroups(rest', pyTable.pinyinList));
      wordTable := wordTable + [g];
      rest := rest';
    }
    assert wordTable + [] == wordTable;
    return Ok(wordTable);
  }

}
