/** Joining, splitting and decimal rendering of text, as Python's `str` does them. */
module TextFormat {
  import opened Bytes
  import opened Utf16

  const Space: U16 := 0x20
  const Apostrophe: U16 := 0x27
  const Newline: U16 := 0x0A
  const Zero: U16 := 0x30

  predicate IsDigit(u: U16) { Zero <= u < Zero + 10 }

  /** The total length of the parts. */
  function TotalLength<T>(parts: seq<seq<T>>): nat
  {
    if parts == [] then 0 else |parts[0]| + TotalLength(parts[1..])
  }

  /** `sep.join(parts)`: the parts in order, with one separator between neighbours. */
  function Join<T>(parts: seq<seq<T>>, sep: T): (r: seq<T>)
    ensures parts == [] ==> r == []
    ensures parts != [] ==> |r| == TotalLength(parts) + |parts| - 1
    ensures parts != [] ==> r[..|parts[0]|] == parts[0]
    decreases |parts|
  {
    if parts == [] then []
    else if |parts| == 1 then parts[0]
    else parts[0] + [sep] + Join(parts[1..], sep)
  }

  /** The position of the first `x` in `s`. */
  function IndexOf<T(==)>(s: seq<T>, x: T): (i: nat)
    requires x in s
    ensures i < |s| && s[i] == x
  {
    if s[0] == x then 0 else 1 + IndexOf(s[1..], x)
  }

  /** `s.split(sep)`: the pieces between the occurrences of `sep`. */
  function Split<T(==)>(s: seq<T>, sep: T): (r: seq<seq<T>>)
    ensures r != []
    decreases |s|
  {
    if sep !in s then [s]
    else
      var i := IndexOf(s, sep);
      [s[..i]] + Split(s[i + 1..], sep)
  }

  lemma {:induction false} IndexOfAfter<T>(p: seq<T>, sep: T, q: seq<T>)
    requires sep !in p
    ensures sep in p + [sep] + q && IndexOf(p + [sep] + q, sep) == |p|
  {
    var s := p + [sep] + q;
    assert s[|p|] == sep;
    if p != [] {
      assert s[1..] == p[1..] + [sep] + q;
      IndexOfAfter(p[1..], sep, q);
    }
  }

  /** Splitting a join on a separator that no part contains gives the parts back. */
  lemma {:induction false} SplitOfJoin<T>(parts: seq<seq<T>>, sep: T)
    requires parts != []
    requires forall k :: 0 <= k < |parts| ==> sep !in parts[k]
    ensures Split(Join(parts, sep), sep) == parts
  {
    if |parts| > 1 {
      var tail := Join(parts[1..], sep);
      SplitAt(parts[0], sep, tail);
      SplitOfJoin(parts[1..], sep);
      assert parts == [parts[0]] + parts[1..];
    }
  }

  /** The first separator ends the first piece. */
  lemma SplitAt<T>(p: seq<T>, sep: T, q: seq<T>)
    requires sep !in p
    ensures Split(p + [sep] + q, sep) == [p] + Split(q, sep)
  {
    IndexOfAfter(p, sep, q);
    var s := p + [sep] + q;
    assert s[..|p|] == p && s[|p| + 1..] == q;
  }

  /** `str(n)` for a non-negative integer: decimal digits without a leading zero. */
  function Decimal(n: nat): (r: Text)
    ensures |r| >= 1 && forall k :: 0 <= k < |r| ==> IsDigit(r[k])
    ensures r[0] == Zero ==> n == 0
  {
    if n < 10 then [Zero + n] else Decimal(n / 10) + [Zero + n % 10]
  }

  /** The number a string of decimal digits denotes. */
  function DigitsValue(s: Text): nat
    requires forall k :: 0 <= k < |s| ==> IsDigit(s[k])
  {
    if s == [] then 0
    else
      assert IsDigit(s[|s| - 1]);
      10 * DigitsValue(s[..|s| - 1]) + (s[|s| - 1] - Zero)
  }

  lemma {:induction false} DigitsValueOfDecimal(n: nat)
    ensures DigitsValue(Decimal(n)) == n
  {
    if n >= 10 {
      var s := Decimal(n);
      assert s[..|s| - 1] == Decimal(n / 10);
      DigitsValueOfDecimal(n / 10);
    }
  }

  lemma DecimalInjective(a: nat, b: nat)
    requires Decimal(a) == Decimal(b)
    ensures a == b
  {
    DigitsValueOfDecimal(a);
    DigitsValueOfDecimal(b);
  }
}
