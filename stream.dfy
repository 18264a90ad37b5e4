/**
 * The brush file as the extractor sees it: an immutable byte string read
 * through a file cursor. Every read advances the cursor by the bytes it
 * obtained; a raw `read(n)` returns a short (possibly empty) slice at the end
 * of the data, and raises only for a length it refuses (below -1, or beyond
 * the 64-bit signed sizes), while the typed readers raise `EOFError` when
 * fewer bytes remain than they need. Seeking past the end is allowed (later
 * reads find nothing); seeking before the start raises.
 *
 * Each read is defined once as a function of the bytes and the cursor
 * (`...At`), and the `Reader` class performs it on its cursor field.
 */
module Stream {
  import opened Wrappers
  import opened BigEndian
  import Utf16

  /** The exceptions raised by reading and seeking. */
  datatype Error =
    | EndOfFile     // EOFError from read_char, read_short, read_long, read_ucs2_text
    | NegativeSeek  // seek to a position before the start of the file
    | NegativeSize  // bytearray() of a negative length in the run-length decoder
    | BadLength     // ValueError from read(n) with n below -1
    | TooLarge      // OverflowError: a read length or bytearray() size of 2^63 or more

  datatype Result<+T> = Ok(value: T) | Err(error: Error) {

    predicate IsFailure() {
      Err?
    }

    function PropagateFailure<U>(): Result<U>
      requires Err?
    {
      Err(error)
    }

    function Extract(): T
      requires Ok?
    {
      value
    }
  }

  /** A value read at a cursor, with the cursor just after it. */
  datatype Parsed<+T> = Parsed(value: T, next: nat)

  /** Pairs what a method returned with the cursor it left, for comparison with a `...At` function. */
  function Stamp<T>(r: Result<T>, pos: nat): Result<Parsed<T>>
  {
    match r
    case Ok(v) => Ok(Parsed(v, pos))
    case Err(e) => Err(e)
  }

  /** A sequence read after `prefix` had already been collected. */
  function Prepend<T>(prefix: seq<T>, r: Result<Parsed<seq<T>>>): Result<Parsed<seq<T>>>
  {
    match r
    case Ok(p) => Ok(Parsed(prefix + p.value, p.next))
    case Err(e) => Err(e)
  }

  lemma PrependNothing<T>(r: Result<Parsed<seq<T>>>)
    ensures Prepend([], r) == r
  {
    if r.Ok? {
      assert [] + r.value.value == r.value.value;
    }
  }

  lemma PrependTwice<T>(a: seq<T>, b: seq<T>, r: Result<Parsed<seq<T>>>)
    ensures Prepend(a, Prepend(b, r)) == Prepend(a + b, r)
  {
    if r.Ok? {
      assert a + (b + r.value.value) == (a + b) + r.value.value;
    }
  }

  /** 2^63: the first size that does not fit the signed 64-bit `Py_ssize_t` of lengths and sizes. */
  const MaxSize: int := 0x8000_0000_0000_0000

  function Remaining(data: seq<byte>, pos: nat): nat
  {
    if pos <= |data| then |data| - pos else 0
  }

  /**
   * `f.read(n)`: at most `n` bytes, or everything that is left for `n == -1`.
   * Any other negative length raises `ValueError`, and a length that does not
   * fit a signed 64-bit size raises `OverflowError`; the cursor stays put.
   */
  function ReadRaw(data: seq<byte>, pos: nat, n: int): (r: Result<Parsed<seq<byte>>>)
    ensures r.Ok? <==> -1 <= n < MaxSize
    ensures r.Err? ==> r.error == if n < -1 then BadLength else TooLarge
    ensures r.Ok? ==> |r.value.value| == (if n == -1 then Remaining(data, pos) else Min(n, Remaining(data, pos)))
    ensures r.Ok? ==> r.value.next == pos + |r.value.value|
    ensures r.Ok? && r.value.next <= |data| ==> r.value.value == data[pos..r.value.next]
  {
    if n < -1 then Err(BadLength)
    else if n >= MaxSize then Err(TooLarge)
    else
      var k := if n == -1 then Remaining(data, pos) else Min(n, Remaining(data, pos));
      if k == 0 then Ok(Parsed([], pos)) else Ok(Parsed(data[pos..pos + k], pos + k))
  }

  /** `read_char`: one unsigned byte, or `EOFError` when none is left. */
  function ReadCharAt(data: seq<byte>, pos: nat): Result<Parsed<byte>>
  {
    if pos + 1 <= |data| then Ok(Parsed(data[pos], pos + 1)) else Err(EndOfFile)
  }

  /** `read_short`: a signed big-endian 16-bit integer, or `EOFError` when fewer than 2 bytes are left. */
  function ReadShortAt(data: seq<byte>, pos: nat): Result<Parsed<int>>
  {
    if pos + 2 <= |data| then Ok(Parsed(S16(data[pos..pos + 2]), pos + 2)) else Err(EndOfFile)
  }

  /** `read_long`: a signed big-endian 32-bit integer, or `EOFError` when fewer than 4 bytes are left. */
  function ReadLongAt(data: seq<byte>, pos: nat): Result<Parsed<int>>
  {
    if pos + 4 <= |data| then Ok(Parsed(S32(data[pos..pos + 4]), pos + 4)) else Err(EndOfFile)
  }

  /** `count` consecutive `read_short`s; none at all when `count` is not positive. */
  function ReadShortsAt(data: seq<byte>, pos: nat, count: int): (r: Result<Parsed<seq<int>>>)
    ensures r.Ok? <==> count <= 0 || pos + 2 * count <= |data|
    ensures r.Ok? ==> |r.value.value| == Nonneg(count) && r.value.next == pos + 2 * Nonneg(count)
    ensures r.Err? ==> r.error == EndOfFile
    decreases count
  {
    if count <= 0 then Ok(Parsed([], pos))
    else
      var first :- ReadShortAt(data, pos);
      var rest :- ReadShortsAt(data, first.next, count - 1);
      Ok(Parsed([first.value] + rest.value, rest.next))
  }

  /** The k-th value read is the big-endian signed 16-bit value of bytes 2k and 2k + 1. */
  lemma {:induction false} ShortsElements(data: seq<byte>, pos: nat, count: int)
    requires ReadShortsAt(data, pos, count).Ok?
    ensures var shorts := ReadShortsAt(data, pos, count).value.value;
      forall k :: 0 <= k < |shorts| ==> shorts[k] == S16(data[pos + 2 * k..pos + 2 * k + 2])
    decreases count
  {
    if count > 0 {
      ShortsElements(data, pos + 2, count - 1);
      var shorts := ReadShortsAt(data, pos, count).value.value;
      var rest := ReadShortsAt(data, pos + 2, count - 1).value.value;
      assert shorts == [S16(data[pos..pos + 2])] + rest;
      forall k | 1 <= k < |shorts|
        ensures shorts[k] == S16(data[pos + 2 * k..pos + 2 * k + 2])
      {
        assert shorts[k] == rest[k - 1];
        assert pos + 2 + 2 * (k - 1) == pos + 2 * k;
      }
    }
  }

  function Nonneg(n: int): nat
  {
    if n < 0 then 0 else n
  }

  /** The text of a UCS-2 name: decoded and NUL-trimmed, or "Unknown" when it does not decode. */
  function Ucs2Text(b: seq<byte>): string
  {
    match Utf16.DecodeUtf16BE(b)
    case Some(s) => Utf16.StripTrailingNul(s)
    case None => "Unknown"
  }

  /**
   * `read_ucs2_text`: a 32-bit count of 16-bit units, then twice that many
   * bytes of text. A count that is not positive yields "" after the count alone.
   */
  function ReadUcs2TextAt(data: seq<byte>, pos: nat): (r: Result<Parsed<string>>)
    ensures r.Ok? <==> pos + 4 <= |data| &&
                       (var n := S32(data[pos..pos + 4]); n <= 0 || pos + 4 + 2 * n <= |data|)
    ensures r.Ok? && S32(data[pos..pos + 4]) <= 0 ==> r.value == Parsed("", pos + 4)
    ensures r.Ok? && S32(data[pos..pos + 4]) > 0 ==>
              var end := pos + 4 + 2 * S32(data[pos..pos + 4]);
              r.value == Parsed(Ucs2Text(data[pos + 4..end]), end)
    ensures r.Err? ==> r.error == EndOfFile
  {
    var length :- ReadLongAt(data, pos);
    var n := length.value * 2;
    if n <= 0 then Ok(Parsed("", length.next))
    else
      var b := ReadRaw(data, length.next, n).value;
      if |b.value| != n then Err(EndOfFile) else Ok(Parsed(Ucs2Text(b.value), b.next))
  }

  /** `f.seek(target)`: any position from 0 on, including past the end. */
  function SeekAt(target: int): (r: Result<nat>)
    ensures r.Ok? <==> target >= 0
    ensures r.Ok? ==> r.value == target
    ensures r.Err? ==> r.error == NegativeSeek
  {
    if target < 0 then Err(NegativeSeek) else Ok(target)
  }

  /** The file object: its contents and its cursor. */
  class Reader {
    const data: seq<byte>
    var pos: nat

    constructor (contents: seq<byte>)
      ensures data == contents && pos == 0
    {
      data := contents;
      pos := 0;
    }

    /** `f.read(n)` */
    method Read(n: int) returns (r: Result<seq<byte>>)
      modifies this
      ensures Stamp(r, pos) == ReadRaw(data, old(pos), n)
      ensures r.Err? ==> pos == old(pos)
    {
      if n < -1 {
        return Err(BadLength);
      }
      if n >= MaxSize {
        return Err(TooLarge);
      }
      var available := if pos <= |data| then |data| - pos else 0;
      var k := if n == -1 || n > available then available else n;
      r := Ok(if k == 0 then [] else data[pos..pos + k]);
      pos := pos + k;
    }

    method ReadChar() returns (r: Result<byte>)
      modifies this
      ensures Stamp(r, pos) == ReadCharAt(data, old(pos))
      ensures pos == ReadRaw(data, old(pos), 1).value.next
    {
      var chunk := Read(1);
      var b := chunk.value;
      if |b| != 1 {
        return Err(EndOfFile);
      }
      return Ok(b[0]);
    }

    method ReadShort() returns (r: Result<int>)
      modifies this
      ensures Stamp(r, pos) == ReadShortAt(data, old(pos))
      ensures pos == ReadRaw(data, old(pos), 2).value.next
    {
      var chunk := Read(2);
      var b := chunk.value;
      if |b| != 2 {
        return Err(EndOfFile);
      }
      return Ok(S16(b));
    }

    method ReadLong() returns (r: Result<int>)
      modifies this
      ensures Stamp(r, pos) == ReadLongAt(data, old(pos))
      ensures pos == ReadRaw(data, old(pos), 4).value.next
    {
      var chunk := Read(4);
      var b := chunk.value;
      if |b| != 4 {
        return Err(EndOfFile);
      }
      return Ok(S32(b));
    }

    /** `count` shorts appended one by one to a list. */
    method ReadShorts(count: int) returns (r: Result<seq<int>>)
      modifies this
      ensures Stamp(r, pos) == ReadShortsAt(data, old(pos), count)
    {
      var shorts: seq<int> := [];
      var i := 0;
      PrependNothing(ReadShortsAt(data, pos, count));
      while i < count
        invariant 0 <= i
        invariant count > 0 ==> i <= count
        invariant ReadShortsAt(data, old(pos), count) ==
                  Prepend(shorts, ReadShortsAt(data, pos, count - i))
      {
        var s := ReadShort();
        if s.Err? {
          return Err(s.error);
        }
        PrependTwice(shorts, [s.value], ReadShortsAt(data, pos, count - i - 1));
        shorts := shorts + [s.value];
        i := i + 1;
      }
      assert shorts + [] == shorts;
      return Ok(shorts);
    }

    method ReadUcs2Text() returns (r: Result<string>)
      modifies this
      ensures Stamp(r, pos) == ReadUcs2TextAt(data, old(pos))
    {
      var length := ReadLong();
      if length.Err? {
        return Err(length.error);
      }
      var n := length.value * 2;
      if n <= 0 {
        return Ok("");
      }
      var chunk := Read(n);
      var b := chunk.value;
      if |b| != n {
        return Err(EndOfFile);
      }
      return Ok(Ucs2Text(b));
    }

    /** `f.seek(target)` */
    method Seek(target: int) returns (r: Result<nat>)
      modifies this
      ensures r == SeekAt(target)
      ensures pos == if r.Ok? then r.value else old(pos)
    {
      if target < 0 {
        return Err(NegativeSeek);
      }
      pos := target;
      return Ok(target);
    }

    /** `f.seek(delta, 1)` */
    method SeekRelative(delta: int) returns (r: Result<nat>)
      modifies this
      ensures r == SeekAt(old(pos) + delta)
      ensures pos == if r.Ok? then r.value else old(pos)
    {
      r := Seek(pos + delta);
    }
  }
}
