/** UTF-16LE text as the decoder sees it (section 2.2 of RFC 2781). */
module Utf16 {
  import opened Results
  import opened Bytes

  /** Decoded text: a sequence of UTF-16 code units. */
  type Text = seq<U16>

  predicate IsHighSurrogate(u: U16) { 0xD800 <= u <= 0xDBFF }

  predicate IsLowSurrogate(u: U16) { 0xDC00 <= u <= 0xDFFF }

  /**
    * Section 2.2 of RFC 2781: a high surrogate must be followed by a low
    * surrogate, and a low surrogate may only appear right after a high one.
    */
  predicate WellFormed(t: Text)
    decreases |t|
  {
    if t == [] then true
    else if IsHighSurrogate(t[0]) then |t| >= 2 && IsLowSurrogate(t[1]) && WellFormed(t[2..])
    else !IsLowSurrogate(t[0]) && WellFormed(t[1..])
  }

  /** The bytes are whole code units that form well-formed UTF-16. */
  predicate Decodable(b: seq<Byte>)
  {
    |b| % 2 == 0 && WellFormed(Pairs(b))
  }

  /** `b.decode("utf-16le")` with strict error handling. */
  function Decode(b: seq<Byte>): (r: Result<Text>)
    ensures |b| % 2 == 1 ==> r == Err(DecodeError)
    ensures r.Ok? <==> Decodable(b)
    ensures r.Err? ==> r.error == DecodeError
    ensures r.Ok? ==> WellFormed(r.value) && 2 * |r.value| == |b|
  {
    if |b| % 2 == 1 then Err(DecodeError)
    else if WellFormed(Pairs(b)) then Ok(Pairs(b))
    else Err(DecodeError)
  }

  /** Decoded text encodes back to exactly the bytes it came from. */
  lemma DecodedBytes(b: seq<Byte>)
    requires Decode(b).Ok?
    ensures Pack16(Decode(b).value) == b
  {
    Pack16OfPairs(b);
  }

  lemma DecodeOfPack16(t: Text)
    requires WellFormed(t)
    ensures Decode(Pack16(t)) == Ok(t)
  {
    PairsOfPack16(t);
  }
}
