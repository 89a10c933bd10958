/** `parse_header`: the signature check and the four fixed-range text fields. */
module Header {
  import opened Results
  import opened Bytes
  import opened Utf16
  import opened ScelTypes

  /**
    * Checks the signature, then decodes name, type, description and example
    * from their fixed byte ranges (each range clamped to the buffer, as a
    * Python slice is).
    */
  function ParseHeader(data: seq<Byte>): (r: Result<ScelHeader>)
    ensures Slice(data, 0, 12) != Signature ==> r == Err(BadSignature)
    ensures |data| < 12 ==> r == Err(BadSignature)
    ensures r.Ok? <==>
      && Slice(data, 0, 12) == Signature
      && Decodable(Slice(data, NameStart, TypeStart))
      && Decodable(Slice(data, TypeStart, DescriptionStart))
      && Decodable(Slice(data, DescriptionStart, ExampleStart))
      && Decodable(Slice(data, ExampleStart, ExampleEnd))
    ensures r.Ok? ==> r.value.signature == Signature
    ensures Slice(data, 0, 12) == Signature && |data| <= NameStart ==>
      r == Ok(ScelHeader(Signature, [], [], [], []))
  {
    var signature := Slice(data, 0, 12);
    if signature != Signature then Err(BadSignature)
    else
      var name :- Decode(Slice(data, NameStart, TypeStart));
      var dictType :- Decode(Slice(data, TypeStart, DescriptionStart));
      var description :- Decode(Slice(data, DescriptionStart, ExampleStart));
      var example :- Decode(Slice(data, ExampleStart, ExampleEnd));
      Ok(ScelHeader(signature, name, dictType, description, example))
  }

  /** Each field of a parsed header encodes back to exactly its byte range. */
  lemma HeaderFields(data: seq<Byte>)
    requires ParseHeader(data).Ok?
    ensures var h := ParseHeader(data).value;
      && data[..12] == Signature
      && Pack16(h.name) == Slice(data, NameStart, TypeStart)
      && Pack16(h.dictType) == Slice(data, TypeStart, DescriptionStart)
      && Pack16(h.description) == Slice(data, DescriptionStart, ExampleStart)
      && Pack16(h.example) == Slice(data, ExampleStart, ExampleEnd)
  {
    DecodedBytes(Slice(data, NameStart, TypeStart));
    DecodedBytes(Slice(data, TypeStart, DescriptionStart));
    DecodedBytes(Slice(data, DescriptionStart, ExampleStart));
    DecodedBytes(Slice(data, ExampleStart, ExampleEnd));
  }
}
