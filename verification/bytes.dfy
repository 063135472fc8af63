/** Byte input and output as the parsers and printers see it: a `Cursor` that advances over
    immutable data (std::io::Cursor), a growing `Buffer` (Vec<u8>), and the position-based
    view of a parser used in specifications. */
module ByteIO {
  import opened Types

  /** What reading a `T` at some position yields: the value and the next position, or an error. */
  datatype Parsed<+T> = Got(value: T, next: nat) | Fail(error: IoError) {
    function ToResult(): Result<T> {
      match this
      case Got(v, _) => Ok(v)
      case Fail(e) => Err(e)
    }
  }

  /** The bytes `e` occur in `d` at position `pos`. */
  predicate Holds(d: Bytes, pos: nat, e: Bytes) {
    pos + |e| <= |d| && d[pos..pos + |e|] == e
  }

  /** `d2` carries the first `n` bytes of `d`, or as many of them as it is long. */
  ghost predicate Same(d: Bytes, d2: Bytes, n: nat) {
    n <= |d| && forall i :: 0 <= i < n && i < |d2| ==> d2[i] == d[i]
  }

  /** What a parser that reads exactly the bytes before `p.next` must do on `d2`, which agrees
      with its original input up to there: the same thing, or run out of input. */
  ghost predicate SameOutcome<T(!new)>(p: Parsed<T>, p2: Parsed<T>, d2: Bytes)
    requires p.Got?
  {
    p2 == if p.next <= |d2| then p else Fail(UnexpectedEof)
  }

  lemma HoldsAppend(d: Bytes, pos: nat, a: Bytes, b: Bytes)
    ensures Holds(d, pos, a + b) <==> Holds(d, pos, a) && Holds(d, pos + |a|, b)
  {
    if Holds(d, pos, a + b) {
      assert d[pos..pos + |a|] == (a + b)[..|a|] == a by {
        assert d[pos..pos + |a| + |b|][..|a|] == d[pos..pos + |a|];
      }
      assert d[pos + |a|..pos + |a| + |b|] == (a + b)[|a|..] == b by {
        assert d[pos..pos + |a| + |b|][|a|..] == d[pos + |a|..pos + |a| + |b|];
      }
    }
    if Holds(d, pos, a) && Holds(d, pos + |a|, b) {
      assert d[pos..pos + |a + b|] == d[pos..pos + |a|] + d[pos + |a|..pos + |a| + |b|];
    }
  }

  lemma HoldsThree(d: Bytes, pos: nat, a: Bytes, b: Bytes, c: Bytes)
    requires Holds(d, pos, a + b + c)
    ensures Holds(d, pos, a) && Holds(d, pos + |a|, b) && Holds(d, pos + |a| + |b|, c)
  {
    HoldsAppend(d, pos, a + b, c);
    HoldsAppend(d, pos, a, b);
  }

  /** `read_exact` on a buffer of length `n`. */
  function ExactAt(d: Bytes, pos: nat, n: nat): (r: Parsed<Bytes>)
    ensures r.Got? <==> pos + n <= |d|
    ensures r.Got? ==> Holds(d, pos, r.value) && r.next == pos + n && |r.value| == n
  {
    if pos + n <= |d| then Got(d[pos..pos + n], pos + n) else Fail(UnexpectedEof)
  }

  lemma ExactLocal(d: Bytes, d2: Bytes, pos: nat, n: nat)
    requires ExactAt(d, pos, n).Got? && Same(d, d2, pos + n)
    ensures SameOutcome(ExactAt(d, pos, n), ExactAt(d2, pos, n), d2)
  {
    if pos + n <= |d2| {
      assert d2[pos..pos + n] == d[pos..pos + n];
    }
  }

  class Cursor {
    const data: Bytes
    var pos: nat

    constructor (data: Bytes)
      ensures this.data == data && pos == 0
    {
      this.data := data;
      pos := 0;
    }

    /** On failure the position is left where it was; no caller looks at it again. */
    method ReadExact(n: nat) returns (r: Result<Bytes>)
      modifies this
      ensures r == ExactAt(data, old(pos), n).ToResult()
      ensures pos == if r.Ok? then old(pos) + n else old(pos)
    {
      if pos + n > |data| {
        return Err(UnexpectedEof);
      }
      r := Ok(data[pos..pos + n]);
      pos := pos + n;
    }
  }

  class Buffer {
    var data: Bytes

    constructor ()
      ensures data == []
    {
      data := [];
    }

    method Push(b: byte)
      modifies this
      ensures data == old(data) + [b]
    {
      data := data + [b];
    }

    method Extend(s: Bytes)
      modifies this
      ensures data == old(data) + s
    {
      data := data + s;
    }
  }
}
