/** `parse_pinyin` and `parse_py_table`: the pinyin table between PY_OFFSET and WORDGROUP_OFFSET. */
module Pinyins {
  import opened Results
  import opened Bytes
  import opened Utf16
  import opened ScelTypes

  /** The bytes a pinyin record occupies on disk: index, length, then the UTF-16LE text. */
  function RecordBytes(p: Pinyin): seq<Byte>
  {
    Le16(p.index) + Le16(p.length) + Pack16(p.pinyin)
  }

  /** The bytes of a run of pinyin records laid end to end. */
  function RecordsBytes(ps: seq<Pinyin>): seq<Byte>
  {
    if ps == [] then [] else RecordBytes(ps[0]) + RecordsBytes(ps[1..])
  }

  /** A record whose declared length is exactly the byte length of its text. */
  predicate Exact(p: Pinyin)
  {
    p.length == 2 * |p.pinyin|
  }

  /**
    * `parse_pinyin`: reads `index` and `length`, decodes the next `length`
    * bytes and returns the rest. A `length` running past the end is clamped,
    * as the Python slice is: the text is whatever remains and the rest is empty.
    */
  function ParsePinyin(data: seq<Byte>): (r: Result<(Pinyin, seq<Byte>)>)
    ensures |data| < 4 ==> r == Err(StructError)
    ensures r.Ok? <==> |data| >= 4 && Decodable(Slice(data, 4, 4 + U16Le(data[2], data[3])))
    ensures |data| >= 4 && r.Err? ==> r.error == DecodeError
    ensures r.Ok? ==>
      var (p, rest) := r.value;
      && p.index == U16Le(data[0], data[1])
      && p.length == U16Le(data[2], data[3])
      && 2 * |p.pinyin| <= p.length
      && (rest != [] ==> Exact(p))
      && |rest| + 4 <= |data|
  {
    if |data| < 4 then Err(StructError)
    else
      var index := U16Le(data[0], data[1]);
      var length := U16Le(data[2], data[3]);
      var pinyin := Decode(Slice(data, 4, 4 + length));
      if pinyin.Err? then Err(pinyin.error)
      else Ok((Pinyin(index, length, pinyin.value), Slice(data, 4 + length, |data|)))
  }

  /** A parsed record accounts for every byte it consumed. */
  lemma ParsePinyinBytes(data: seq<Byte>)
    requires ParsePinyin(data).Ok?
    ensures data == RecordBytes(ParsePinyin(data).value.0) + ParsePinyin(data).value.1
  {
    var length: nat := U16Le(data[2], data[3]);
    DecodedBytes(Slice(data, 4, 4 + length));
    HeadedBytes(data, 4 + length);
  }

  /** The records of the table body, read until no byte is left (the `while data:` loop of `parse_py_table`). */
  function PinyinEntries(data: seq<Byte>): (r: Result<seq<Pinyin>>)
    ensures r.Err? ==> r.error == StructError || r.error == DecodeError
    ensures r.Ok? ==> 4 * |r.value| <= |data|
    decreases |data|
  {
    if data == [] then Ok([])
    else
      var step := ParsePinyin(data);
      if step.Err? then Err(step.error)
      else Prepend([step.value.0], PinyinEntries(step.value.1))
  }

  /** One step of `PinyinEntries`: the first record, then the records of the rest. */
  lemma PinyinEntriesStep(data: seq<Byte>) returns (rest: seq<Byte>)
    requires data != [] && PinyinEntries(data).Ok?
    ensures ParsePinyin(data).Ok? && ParsePinyin(data).value.1 == rest
    ensures PinyinEntries(rest).Ok?
    ensures PinyinEntries(data).value == [ParsePinyin(data).value.0] + PinyinEntries(rest).value
  {
    rest := ParsePinyin(data).value.1;
  }

  /** Every byte of the table body belongs to exactly one record. */
  lemma {:induction false} PinyinEntriesBytes(data: seq<Byte>)
    requires PinyinEntries(data).Ok?
    ensures RecordsBytes(PinyinEntries(data).value) == data
    decreases |data|
  {
    if data != [] {
      var rest := PinyinEntriesStep(data);
      var ps := PinyinEntries(data).value;
      PinyinEntriesBytes(rest);
      ParsePinyinBytes(data);
      assert ps[1..] == PinyinEntries(rest).value;
    }
  }

  /**
    * Records as `parse_pinyin` leaves them: none holds more text than its
    * declared length, and only the last may declare more bytes than remain.
    */
  predicate Shaped(ps: seq<Pinyin>)
  {
    forall i :: 0 <= i < |ps| ==> (i < |ps| - 1 ==> Exact(ps[i])) && 2 * |ps[i].pinyin| <= ps[i].length
  }

  lemma ShapedCons(p: Pinyin, ps: seq<Pinyin>)
    requires 2 * |p.pinyin| <= p.length && (ps != [] ==> Exact(p)) && Shaped(ps)
    ensures Shaped([p] + ps)
  {
    forall i | 1 <= i < |ps| + 1
      ensures (i < |ps| ==> Exact(([p] + ps)[i])) && 2 * |([p] + ps)[i].pinyin| <= ([p] + ps)[i].length
    {
      assert ([p] + ps)[i] == ps[i - 1];
    }
  }

  /** Every record of the table body is shaped as `parse_pinyin` leaves it. */
  lemma {:induction false} PinyinEntriesShaped(data: seq<Byte>)
    requires PinyinEntries(data).Ok?
    ensures Shaped(PinyinEntries(data).value)
    decreases |data|
  {
    if data != [] {
      var rest := PinyinEntriesStep(data);
      var tail := PinyinEntries(rest).value;
      PinyinEntriesShaped(rest);
      if tail != [] {
        assert rest != [];
      }
      ShapedCons(ParsePinyin(data).value.0, tail);
    }
  }

  /** `parse_py_table`, as a value: the magic check, then the records of the rest. */
  function PyTableOf(data: seq<Byte>): (r: Result<PinyinTable>)
    ensures Slice(data, 0, 4) != PinyinMagic ==> r == Err(BadPinyinMagic)
    ensures r.Ok? ==> r.value.header == PinyinMagic
  {
    if Slice(data, 0, 4) != PinyinMagic then Err(BadPinyinMagic)
    else
      var entries := PinyinEntries(data[4..]);
      if entries.Err? then Err(entries.error)
      else Ok(PinyinTable(data[..4], entries.value))
  }

  /** A parsed pinyin table is the magic followed by its records, and nothing else. */
  lemma PyTableBytes(data: seq<Byte>)
    requires PyTableOf(data).Ok?
    ensures data == PinyinMagic + RecordsBytes(PyTableOf(data).value.pinyinList)
  {
    PinyinEntriesBytes(data[4..]);
    assert data == data[..4] + data[4..];
  }

  /** `parse_py_table`: checks the magic, then consumes the table body record by record. */
  method ParsePyTable(data: seq<Byte>) returns (r: Result<PinyinTable>)
    ensures r == PyTableOf(data)
  {
    if Slice(data, 0, 4) != PinyinMagic {
      return Err(BadPinyinMagic);
    }
    var pinyinList: seq<Pinyin> := [];
    var rest := data[4..];
    PrependNil(PinyinEntries(rest));
    while rest != []
      invariant PinyinEntries(data[4..]) == Prepend(pinyinList, PinyinEntries(rest))
      decreases |rest|
    {
      var step := ParsePinyin(rest);
      if step.Err? {
        return Err(step.error);
      }
      var (p, rest') := step.value;
      assert PinyinEntries(rest) == Prepend([p], PinyinEntries(rest'));
      PrependPrepend(pinyinList, [p], PinyinEntries(rest'));
      pinyinList := pinyinList + [p];
      rest := rest';
    }
    assert pinyinList + [] == pinyinList;
    assert PinyinEntries(data[4..]) == Ok(pinyinList);
    return Ok(PinyinTable(data[..4], pinyinList));
  }

  /** Encoding well-formed records and parsing them back gives the same records. */
  lemma {:induction false} PinyinEntriesOfRecords(ps: seq<Pinyin>)
    requires forall i :: 0 <= i < |ps| ==> Exact(ps[i]) && WellFormed(ps[i].pinyin)
    ensures PinyinEntries(RecordsBytes(ps)) == Ok(ps)
  {
    if ps != [] {
      var p, tail := ps[0], RecordsBytes(ps[1..]);
      var data := RecordsBytes(ps);
      assert data == Le16(p.index) + Le16(p.length) + Pack16(p.pinyin) + tail;
      assert data[4..4 + p.length] == Pack16(p.pinyin);
      assert data[4 + p.length..] == tail;
      DecodeOfPack16(p.pinyin);
      assert ParsePinyin(data) == Ok((p, tail));
      PinyinEntriesOfRecords(ps[1..]);
      assert ps == [p] + ps[1..];
    }
  }
}
