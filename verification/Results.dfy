/** Failure kinds of the dictionary decoder and the result type that carries them. */
module Results {

  /** One constructor per exception the decoder lets escape. */
  datatype Error =
    | BadSignature   // ParseError: the 12-byte file signature does not match
    | BadPinyinMagic // ParseError: the 4-byte pinyin-table magic does not match
    | StructError    // struct.error: a fixed-size unpack got the wrong number of bytes
    | IndexError     // IndexError: a pinyin position past the end of the pinyin list
    | DecodeError    // UnicodeDecodeError: bytes that are not well-formed UTF-16LE

  datatype Result<+T> = Ok(value: T) | Err(error: Error) {
    predicate IsFailure() { Err? }

    function PropagateFailure<U>(): Result<U>
      requires Err?
    {
      Err(error)
    }

    function Extract(): T
      requires Ok?
    {
      value
    }
  }

  /** Puts `xs` in front of a successful list; a failure passes through unchanged. */
  function Prepend<T>(xs: seq<T>, r: Result<seq<T>>): Result<seq<T>>
  {
    if r.Err? then Err(r.error) else Ok(xs + r.value)
  }

  /** Runs `a` and then `b`, concatenating their lists; the first failure wins. */
  function Chain<T>(a: Result<seq<T>>, b: Result<seq<T>>): Result<seq<T>>
  {
    if a.Err? then Err(a.error) else Prepend(a.value, b)
  }

  lemma PrependNil<T>(r: Result<seq<T>>)
    ensures Prepend([], r) == r
  {
    if r.Ok? {
      assert [] + r.value == r.value;
    }
  }

  lemma PrependPrepend<T>(xs: seq<T>, ys: seq<T>, r: Result<seq<T>>)
    ensures Prepend(xs, Prepend(ys, r)) == Prepend(xs + ys, r)
  {
    if r.Ok? {
      assert xs + (ys + r.value) == (xs + ys) + r.value;
    }
  }

  lemma ChainChain<T>(a: Result<seq<T>>, b: Result<seq<T>>, c: Result<seq<T>>)
    ensures Chain(Chain(a, b), c) == Chain(a, Chain(b, c))
  {
    if a.Ok? && b.Ok? {
      PrependPrepend(a.value, b.value, c);
    }
  }

  lemma ChainPrepend<T>(xs: seq<T>, a: Result<seq<T>>, b: Result<seq<T>>)
    ensures Chain(Prepend(xs, a), b) == Prepend(xs, Chain(a, b))
  {
    if a.Ok? {
      PrependPrepend(xs, a.value, b);
    }
  }

  /** Puts `xs` in front of the list of a successful (list, remainder) pair. */
  function PrependFirst<T, S>(xs: seq<T>, r: Result<(seq<T>, S)>): Result<(seq<T>, S)>
  {
    if r.Err? then Err(r.error) else Ok((xs + r.value.0, r.value.1))
  }

  lemma PrependFirstNil<T, S>(r: Result<(seq<T>, S)>)
    ensures PrependFirst([], r) == r
  {
    if r.Ok? {
      assert [] + r.value.0 == r.value.0;
    }
  }

  lemma PrependFirstPrependFirst<T, S>(xs: seq<T>, ys: seq<T>, r: Result<(seq<T>, S)>)
    ensures PrependFirst(xs, PrependFirst(ys, r)) == PrependFirst(xs + ys, r)
  {
    if r.Ok? {
      assert xs + (ys + r.value.0) == (xs + ys) + r.value.0;
    }
  }
}
