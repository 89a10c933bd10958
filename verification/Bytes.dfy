/** Bytes, 16-bit little-endian integers and Python's clamped slicing. */
module Bytes {
  import opened Results

  type Byte = b: int | 0 <= b < 0x100
  type U16 = n: int | 0 <= n < 0x1_0000

  function Min(a: int, b: int): int { if a <= b then a else b }

  /**
    * Python's `s[lo:hi]` for non-negative bounds: both bounds are clamped to
    * the length of `s`, and a range that ends before it starts is empty.
    */
  function Slice<T>(s: seq<T>, lo: nat, hi: nat): (r: seq<T>)
    ensures |r| == if lo <= hi && lo <= |s| then Min(hi, |s|) - lo else 0
    ensures lo <= hi <= |s| ==> r == s[lo..hi]
    ensures lo <= |s| <= hi ==> r == s[lo..]
    ensures hi < lo || |s| < lo ==> r == []
  {
    var a := Min(lo, |s|);
    var b := Min(hi, |s|);
    if a <= b then s[a..b] else []
  }

  /** The value of the two bytes `lo, hi` read as a little-endian u16 (`struct` format `<H`). */
  function U16Le(lo: Byte, hi: Byte): (r: U16)
    ensures r % 0x100 == lo && r / 0x100 == hi
  {
    lo + 0x100 * hi
  }

  /** `struct.pack("<H", n)`. */
  function Le16(n: U16): (r: seq<Byte>)
    ensures |r| == 2 && U16Le(r[0], r[1]) == n
  {
    [n % 0x100, n / 0x100]
  }

  lemma Le16OfU16Le(lo: Byte, hi: Byte)
    ensures Le16(U16Le(lo, hi)) == [lo, hi]
  {
    var n := U16Le(lo, hi);
    assert n % 0x100 == lo && n / 0x100 == hi;
  }

  /** Successive byte pairs read as little-endian u16 values; a trailing odd byte is not read. */
  function Pairs(b: seq<Byte>): (r: seq<U16>)
    ensures 2 * |r| <= |b| <= 2 * |r| + 1
    decreases |b|
  {
    if |b| < 2 then [] else [U16Le(b[0], b[1])] + Pairs(b[2..])
  }

  /** `struct.pack(f"<{len(xs)}H", *xs)`; it is also the UTF-16LE encoding of code units `xs`. */
  function Pack16(xs: seq<U16>): (r: seq<Byte>)
    ensures |r| == 2 * |xs|
  {
    if xs == [] then [] else Le16(xs[0]) + Pack16(xs[1..])
  }

  lemma {:induction false} PairsOfPack16(xs: seq<U16>)
    ensures Pairs(Pack16(xs)) == xs
  {
    if xs != [] {
      var b := Pack16(xs);
      assert b[2..] == Pack16(xs[1..]);
      PairsOfPack16(xs[1..]);
    }
  }

  lemma {:induction false} Pack16OfPairs(b: seq<Byte>)
    requires |b| % 2 == 0
    ensures Pack16(Pairs(b)) == b
  {
    if |b| >= 2 {
      Le16OfU16Le(b[0], b[1]);
      Pack16OfPairs(b[2..]);
      assert b == [b[0], b[1]] + b[2..];
    }
  }

  /**
    * `struct.unpack(f"<{n}H", b)`: it succeeds exactly when `b` holds `2 * n`
    * bytes, and then gives the `n` values whose packing is `b`.
    */
  function Unpack16(n: nat, b: seq<Byte>): (r: Result<seq<U16>>)
    ensures r.Ok? <==> |b| == n + n
    ensures r.Err? ==> r.error == StructError
    ensures r.Ok? ==> |r.value| == n
  {
    if |b| != n + n then Err(StructError)
    else Ok(Pairs(b))
  }

  /** Unpacked values pack back to exactly the bytes they came from. */
  lemma UnpackedBytes(n: nat, b: seq<Byte>)
    requires Unpack16(n, b).Ok?
    ensures Pack16(Unpack16(n, b).value) == b
  {
    Pack16OfPairs(b);
  }

  lemma Unpack16OfPack16(xs: seq<U16>)
    ensures Unpack16(|xs|, Pack16(xs)) == Ok(xs)
  {
    PairsOfPack16(xs);
  }

  /** A buffer is its two leading u16 fields, then its clamped body, then what follows. */
  lemma HeadedBytes(data: seq<Byte>, end: nat)
    requires 4 <= |data| && 4 <= end
    ensures data == Le16(U16Le(data[0], data[1])) + Le16(U16Le(data[2], data[3]))
                    + Slice(data, 4, end) + Slice(data, end, |data|)
  {
    Le16OfU16Le(data[0], data[1]);
    Le16OfU16Le(data[2], data[3]);
    TwoAt(data, 0);
    TwoAt(data, 2);
    Cut3(data, 2, 4);
    SliceCut(data, 4, end);
    Associative(data[..2] + data[2..4], Slice(data, 4, end), Slice(data, end, |data|));
  }

  lemma TwoAt<T>(s: seq<T>, i: nat)
    requires i + 2 <= |s|
    ensures s[i..i + 2] == [s[i], s[i + 1]]
    ensures i == 0 ==> s[..2] == [s[0], s[1]]
  {
  }

  lemma Cut3<T>(s: seq<T>, i: nat, j: nat)
    requires i <= j <= |s|
    ensures s == s[..i] + s[i..j] + s[j..]
  {
  }

  lemma Cut4<T>(s: seq<T>, i: nat, j: nat, k: nat)
    requires i <= j <= k <= |s|
    ensures s == s[..i] + s[i..j] + s[j..k] + s[k..]
  {
  }

  /** The tail of a sequence from `lo` is its clamped slice up to `mid` and then the tail from `mid`. */
  lemma SliceCut<T>(s: seq<T>, lo: nat, mid: nat)
    requires lo <= |s| && lo <= mid
    ensures s[lo..] == Slice(s, lo, mid) + Slice(s, mid, |s|)
  {
    if mid <= |s| {
      assert s[lo..] == s[lo..mid] + s[mid..];
    }
  }

  /** A buffer that is `a` then `mid`, where `mid` is `b` then `rest`, is `a + b` then `rest`. */
  lemma Regroup<T>(whole: seq<T>, a: seq<T>, mid: seq<T>, b: seq<T>, rest: seq<T>)
    requires whole == a + mid && mid == b + rest
    ensures whole == (a + b) + rest
  {
    Associative(a, b, rest);
  }

  lemma Associative<T>(a: seq<T>, b: seq<T>, c: seq<T>)
    ensures a + (b + c) == a + b + c
  {
  }
}
