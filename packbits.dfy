/**
 * The run-length decoder for compressed brush planes: the PackBits scheme of
 * Apple Technical Note TN1023. A plane starts with one signed big-endian
 * 16-bit compressed length per row; each row is then a sequence of packets
 * whose signed control byte n means
 *   n == -128        : nothing (a no-op),
 *   -127 <= n <= -1  : the next byte, repeated 1 - n times,
 *   0 <= n <= 127    : the next n + 1 bytes, copied.
 * The decoded bytes go one after another into a zero-filled buffer of
 * height * width bytes; writes beyond its end are dropped.
 */
module PackBits {
  import opened Wrappers
  import opened BigEndian
  import opened Stream

  /** The control byte as a signed 8-bit value. */
  function Signed(b: byte): (n: int)
    ensures -128 <= n < 128
    ensures n % 256 == b
  {
    if b >= 128 then b - 256 else b
  }

  function Repeat(b: byte, n: nat): (s: seq<byte>)
    ensures |s| == n
    ensures forall k :: 0 <= k < n ==> s[k] == b
  {
    seq(n, _ => b)
  }

  /**
   * The buffer of length `n` after the bytes `s` were written into it one by
   * one from its start, writes past its end being dropped.
   */
  function Fit(s: seq<byte>, n: nat): (b: seq<byte>)
    ensures |b| == n
    ensures forall k :: 0 <= k < n ==> b[k] == (if k < |s| then s[k] else 0)
  {
    if |s| >= n then s[..n] else s + Repeat(0, n - |s|)
  }

  /** Writing one more byte changes the next free position of the buffer, if any. */
  lemma FitAppend(s: seq<byte>, c: byte, n: nat)
    ensures Fit(s + [c], n) == if |s| < n then Fit(s, n)[|s| := c] else Fit(s, n)
  {
    var a, b := Fit(s + [c], n), if |s| < n then Fit(s, n)[|s| := c] else Fit(s, n);
    forall k | 0 <= k < n
      ensures a[k] == b[k]
    {
    }
  }

  /** `n` bytes read one at a time with `read_char`. */
  function LiteralAt(data: seq<byte>, pos: nat, n: nat): (r: Result<Parsed<seq<byte>>>)
    requires n >= 1
    ensures r.Ok? <==> pos + n <= |data|
    ensures r.Ok? ==> r.value == Parsed(data[pos..pos + n], pos + n)
    ensures r.Err? ==> r.error == EndOfFile
  {
    if pos + n <= |data| then Ok(Parsed(data[pos..pos + n], pos + n)) else Err(EndOfFile)
  }

  /**
   * One packet: its control byte and what follows it, decoded; `next` is
   * where the following packet starts.
   */
  function PacketAt(data: seq<byte>, pos: nat): (r: Result<Parsed<seq<byte>>>)
    ensures r.Ok? ==> pos < r.value.next
  {
    var control :- ReadCharAt(data, pos);
    var n := Signed(control.value);
    if n == -128 then Ok(Parsed([], control.next))
    else if n < 0 then
      var ch :- ReadCharAt(data, control.next);
      Ok(Parsed(Repeat(ch.value, 1 - n), ch.next))
    else
      LiteralAt(data, control.next, n + 1)
  }

  /**
   * One row: packets are read while fewer than `budget` bytes of the row have
   * been consumed; the last packet may run past the declared length.
   */
  function DecodeRow(data: seq<byte>, pos: nat, budget: int): Result<Parsed<seq<byte>>>
    decreases budget
  {
    if budget <= 0 then Ok(Parsed([], pos))
    else
      var packet :- PacketAt(data, pos);
      var rest :- DecodeRow(data, packet.next, budget - (packet.next - pos));
      Ok(Parsed(packet.value + rest.value, rest.next))
  }

  /** The rows one after another, each with its declared compressed length. */
  function DecodeRows(data: seq<byte>, pos: nat, lengths: seq<int>): Result<Parsed<seq<byte>>>
    decreases |lengths|
  {
    if lengths == [] then Ok(Parsed([], pos))
    else
      var row :- DecodeRow(data, pos, lengths[0]);
      var rest :- DecodeRows(data, row.next, lengths[1..]);
      Ok(Parsed(row.value + rest.value, rest.next))
  }

  /**
   * `abr_rle_decode(f, height, width)`: the row lengths, then a buffer of
   * `height * width` bytes, which `bytearray` refuses when the size is
   * negative or does not fit a signed 64-bit size.
   */
  function RleDecodeAt(data: seq<byte>, pos: nat, height: int, width: int): (r: Result<Parsed<seq<byte>>>)
    ensures r.Ok? ==> 0 <= height * width < MaxSize && |r.value.value| == height * width
    ensures ReadShortsAt(data, pos, height).Err? ==> r == Err(EndOfFile)
    ensures ReadShortsAt(data, pos, height).Ok? && height * width < 0 ==> r == Err(NegativeSize)
    ensures ReadShortsAt(data, pos, height).Ok? && height * width >= MaxSize ==> r == Err(TooLarge)
  {
    var lengths :- ReadShortsAt(data, pos, height);
    if height * width < 0 then Err(NegativeSize)
    else if height * width >= MaxSize then Err(TooLarge)
    else
      var rows :- DecodeRows(data, lengths.next, lengths.value);
      Ok(Parsed(Fit(rows.value, height * width), rows.next))
  }

  // ---------------------------------------------------------------------
  // Properties of the decoder

  /** A -128 control byte is a packet that produces nothing. */
  lemma NoOpPacket(data: seq<byte>, pos: nat)
    requires pos < |data| && Signed(data[pos]) == -128
    ensures PacketAt(data, pos) == Ok(Parsed([], pos + 1))
  {
  }

  /** A control byte `n` in [-127, -1] repeats the byte after it `1 - n` times. */
  lemma RepeatPacket(data: seq<byte>, pos: nat)
    requires pos + 2 <= |data| && -128 < Signed(data[pos]) < 0
    ensures PacketAt(data, pos) == Ok(Parsed(Repeat(data[pos + 1], 1 - Signed(data[pos])), pos + 2))
  {
  }

  /** A control byte `n` in [0, 127] copies the `n + 1` bytes after it. */
  lemma LiteralPacket(data: seq<byte>, pos: nat)
    requires pos < |data| && 0 <= Signed(data[pos])
    requires pos + 2 + Signed(data[pos]) <= |data|
    ensures PacketAt(data, pos) == Ok(Parsed(data[pos + 1..pos + 2 + Signed(data[pos])], pos + 2 + Signed(data[pos])))
  {
  }

  /** A packet cut short by the end of the data fails with end-of-file. */
  lemma TruncatedPacket(data: seq<byte>, pos: nat)
    requires pos >= |data|
      || (Signed(data[pos]) != -128 && pos + 2 > |data|)
      || (0 <= Signed(data[pos]) && pos + 2 + Signed(data[pos]) > |data|)
    ensures PacketAt(data, pos) == Err(EndOfFile)
  {
  }

  /** A row is its first packet, then the rest of the row after it. */
  lemma RowStep(data: seq<byte>, pos: nat, budget: int, packet: Parsed<seq<byte>>, rest: Parsed<seq<byte>>)
    requires budget > 0
    requires PacketAt(data, pos) == Ok(packet)
    requires DecodeRow(data, packet.next, budget - (packet.next - pos)) == Ok(rest)
    ensures DecodeRow(data, pos, budget) == Ok(Parsed(packet.value + rest.value, rest.next))
  {
  }

  /** Decoding several rows: the first row, then the others from where it ended. */
  lemma RowsStep(data: seq<byte>, pos: nat, length: int, others: seq<int>, first: Parsed<seq<byte>>, rest: Parsed<seq<byte>>)
    requires DecodeRow(data, pos, length) == Ok(first)
    requires DecodeRows(data, first.next, others) == Ok(rest)
    ensures DecodeRows(data, pos, [length] + others) == Ok(Parsed(first.value + rest.value, rest.next))
  {
    assert ([length] + others)[1..] == others;
  }

  /** A row made only of -128 control bytes decodes to nothing. */
  lemma {:induction false} NoOpRow(data: seq<byte>, pos: nat, budget: nat)
    requires pos + budget <= |data|
    requires forall k :: pos <= k < pos + budget ==> data[k] == 0x80
    ensures DecodeRow(data, pos, budget) == Ok(Parsed([], pos + budget))
    decreases budget
  {
    if budget > 0 {
      NoOpPacket(data, pos);
      NoOpRow(data, pos + 1, budget - 1);
      RowStep(data, pos, budget, Parsed([], pos + 1), Parsed([], pos + budget));
      var none: seq<byte> := [];
      assert none + none == none;
    }
  }

  /** ...so rows that are all no-ops produce nothing, and the plane stays zero. */
  lemma {:induction false} NoOpRows(data: seq<byte>, pos: nat, lengths: seq<nat>)
    requires pos + Sum(lengths) <= |data|
    requires forall k :: pos <= k < pos + Sum(lengths) ==> data[k] == 0x80
    ensures DecodeRows(data, pos, lengths) == Ok(Parsed([], pos + Sum(lengths)))
    decreases |lengths|
  {
    if lengths != [] {
      NoOpRow(data, pos, lengths[0]);
      NoOpRows(data, pos + lengths[0], lengths[1..]);
      RowsStep(data, pos, lengths[0], lengths[1..], Parsed([], pos + lengths[0]), Parsed([], pos + Sum(lengths)));
      assert [lengths[0]] + lengths[1..] == lengths;
      var none: seq<byte> := [];
      assert none + none == none;
    }
  }

  function Sum(s: seq<nat>): nat
    decreases |s|
  {
    if s == [] then 0 else s[0] + Sum(s[1..])
  }

  // ---------------------------------------------------------------------
  // Encodings, and the round trip: any well-formed encoding of a row or a
  // plane decodes back to the bytes it stands for.

  /** A packet as an encoder writes it. */
  datatype Packet =
    | Fill(value: byte, count: nat)  // `value`, `count` times: control byte 1 - count
    | Copy(bytes: seq<byte>)         // the bytes themselves: control byte |bytes| - 1
    | Pad                            // control byte -128: nothing

  /** The packets a control byte can express: runs of 2 to 128, literals of 1 to 128 bytes. */
  predicate WellFormed(p: Packet)
  {
    match p
    case Fill(_, count) => 2 <= count <= 128
    case Copy(bytes) => 1 <= |bytes| <= 128
    case Pad => true
  }

  predicate AllWellFormed(ps: seq<Packet>)
  {
    forall k :: 0 <= k < |ps| ==> WellFormed(ps[k])
  }

  /** The bytes of one packet: its control byte, then its operand. */
  function PacketBytes(p: Packet): (enc: seq<byte>)
    ensures |enc| >= 1
  {
    match p
    case Fill(value, count) => [(257 - count) % 256, value]
    case Copy(bytes) => [(|bytes| - 1) % 256] + bytes
    case Pad => [128]
  }

  /** The bytes a packet stands for. */
  function Expand(p: Packet): seq<byte>
  {
    match p
    case Fill(value, count) => Repeat(value, count)
    case Copy(bytes) => bytes
    case Pad => []
  }

  function Encode(ps: seq<Packet>): seq<byte>
    decreases |ps|
  {
    if ps == [] then [] else PacketBytes(ps[0]) + Encode(ps[1..])
  }

  function ExpandAll(ps: seq<Packet>): seq<byte>
    decreases |ps|
  {
    if ps == [] then [] else Expand(ps[0]) + ExpandAll(ps[1..])
  }

  lemma EncodeCons(ps: seq<Packet>)
    requires ps != []
    ensures Encode(ps) == PacketBytes(ps[0]) + Encode(ps[1..])
  {
  }

  lemma ExpandCons(ps: seq<Packet>)
    requires ps != []
    ensures ExpandAll(ps) == Expand(ps[0]) + ExpandAll(ps[1..])
  {
  }

  lemma WellFormedTail(ps: seq<Packet>)
    requires ps != [] && AllWellFormed(ps)
    ensures WellFormed(ps[0]) && AllWellFormed(ps[1..])
  {
    assert forall k :: 0 <= k < |ps[1..]| ==> ps[1..][k] == ps[k + 1];
  }

  /** A well-formed packet found at `pos` decodes to the bytes it stands for and ends where its encoding ends. */
  lemma PacketRoundTrip(data: seq<byte>, pos: nat, p: Packet)
    requires WellFormed(p)
    requires Stored(data, pos, PacketBytes(p))
    ensures PacketAt(data, pos) == Ok(Parsed(Expand(p), pos + |PacketBytes(p)|))
  {
    var enc := PacketBytes(p);
    assert data[pos] == enc[0];
    match p
    case Fill(value, count) =>
      assert data[pos + 1] == enc[1];
      RepeatPacket(data, pos);
    case Copy(bytes) =>
      SliceWithin(data, pos, enc, 1, |enc|);
      assert enc[1..] == bytes;
      LiteralPacket(data, pos);
    case Pad =>
      NoOpPacket(data, pos);
  }

  /** A row whose first packet is `p`: its bytes, then the rest of the row. */
  lemma PacketThenRow(data: seq<byte>, pos: nat, p: Packet, restLength: nat, tail: seq<byte>)
    requires WellFormed(p) && Stored(data, pos, PacketBytes(p))
    requires DecodeRow(data, pos + |PacketBytes(p)|, restLength) == Ok(Parsed(tail, pos + |PacketBytes(p)| + restLength))
    ensures DecodeRow(data, pos, |PacketBytes(p)| + restLength) ==
            Ok(Parsed(Expand(p) + tail, pos + |PacketBytes(p)| + restLength))
  {
    PacketRoundTrip(data, pos, p);
    RowStep(data, pos, |PacketBytes(p)| + restLength, Parsed(Expand(p), pos + |PacketBytes(p)|),
            Parsed(tail, pos + |PacketBytes(p)| + restLength));
  }

  /** `data` holds `s` from `pos` on. */
  predicate Stored(data: seq<byte>, pos: nat, s: seq<byte>)
  {
    pos + |s| <= |data| && data[pos..pos + |s|] == s
  }

  /** Stored `a + b` is stored `a`, then stored `b`. */
  lemma StoredSplit(data: seq<byte>, pos: nat, a: seq<byte>, b: seq<byte>)
    requires Stored(data, pos, a + b)
    ensures Stored(data, pos, a) && Stored(data, pos + |a|, b)
  {
    SplitConcat(data, pos, a, b);
  }

  /**
   * The round trip for a row: the encoding of any well-formed packets, decoded
   * with its own length as the row's declared length, gives back the bytes the
   * packets stand for and ends where the encoding ends.
   */
  lemma {:induction false} DecodeEncodedRow(data: seq<byte>, pos: nat, ps: seq<Packet>)
    requires AllWellFormed(ps)
    requires Stored(data, pos, Encode(ps))
    ensures DecodeRow(data, pos, |Encode(ps)|) == Ok(Parsed(ExpandAll(ps), pos + |Encode(ps)|))
    decreases |ps|
  {
    hide *;
    if ps == [] {
      EncodedNothing(data, pos);
    } else {
      WellFormedTail(ps);
      EncodedTail(data, pos, ps);
      DecodeEncodedRow(data, pos + |PacketBytes(ps[0])|, ps[1..]);
      EncodedCons(data, pos, ps);
    }
  }

  lemma EncodedNothing(data: seq<byte>, pos: nat)
    ensures DecodeRow(data, pos, |Encode([])|) == Ok(Parsed(ExpandAll([]), pos + |Encode([])|))
  {
  }

  /** The packets after the first are stored right after the first packet's bytes. */
  lemma EncodedTail(data: seq<byte>, pos: nat, ps: seq<Packet>)
    requires ps != [] && Stored(data, pos, Encode(ps))
    ensures Stored(data, pos + |PacketBytes(ps[0])|, Encode(ps[1..]))
  {
    hide *;
    EncodeCons(ps);
    StoredSplit(data, pos, PacketBytes(ps[0]), Encode(ps[1..]));
  }

  /** A row of packets is its first packet, then the row of the others. */
  lemma EncodedCons(data: seq<byte>, pos: nat, ps: seq<Packet>)
    requires ps != [] && WellFormed(ps[0]) && Stored(data, pos, Encode(ps))
    requires var mid := pos + |PacketBytes(ps[0])|;
             DecodeRow(data, mid, |Encode(ps[1..])|) == Ok(Parsed(ExpandAll(ps[1..]), mid + |Encode(ps[1..])|))
    ensures DecodeRow(data, pos, |Encode(ps)|) == Ok(Parsed(ExpandAll(ps), pos + |Encode(ps)|))
  {
    hide *;
    EncodeCons(ps);
    StoredSplit(data, pos, PacketBytes(ps[0]), Encode(ps[1..]));
    ExpandCons(ps);
    PacketThenRow(data, pos, ps[0], |Encode(ps[1..])|, ExpandAll(ps[1..]));
  }

  /** How many bytes at the start of `row`, from `k` on, repeat its first byte, up to 128. */
  function RunFrom(row: seq<byte>, k: nat): (n: nat)
    requires 1 <= k <= |row| && k <= 128
    requires forall j :: 0 <= j < k ==> row[j] == row[0]
    ensures k <= n <= |row| && n <= 128
    ensures forall j :: 0 <= j < n ==> row[j] == row[0]
    decreases |row| - k
  {
    if k < |row| && k < 128 && row[k] == row[0] then RunFrom(row, k + 1) else k
  }

  /**
   * A greedy encoder: the longest run (up to 128) of the first byte becomes a
   * repeat packet when it has at least two bytes, otherwise that byte becomes
   * a one-byte literal.
   */
  function Pack(row: seq<byte>): (ps: seq<Packet>)
    ensures AllWellFormed(ps)
    decreases |row|
  {
    if row == [] then []
    else
      var n := RunFrom(row, 1);
      var first := if n >= 2 then Fill(row[0], n) else Copy(row[..1]);
      var rest := Pack(row[n..]);
      assert forall k :: 1 <= k < |[first] + rest| ==> ([first] + rest)[k] == rest[k - 1];
      [first] + rest
  }

  /** The encoder loses nothing, and its encoding is at most twice as long as the row. */
  lemma {:induction false} PackExpands(row: seq<byte>)
    ensures ExpandAll(Pack(row)) == row
    ensures |Encode(Pack(row))| <= 2 * |row|
    decreases |row|
  {
    if row != [] {
      hide *;
      var n := RunFrom(row, 1);
      PackCons(row);
      PackExpands(row[n..]);
      EncodeCons(Pack(row));
      ExpandCons(Pack(row));
    }
  }

  /** `Pack` takes the first run (or single byte) off the front of the row. */
  lemma PackCons(row: seq<byte>)
    requires row != []
    ensures var n := RunFrom(row, 1);
            var p := Pack(row)[0];
            1 <= n <= |row| && Pack(row) != [] && Pack(row)[1..] == Pack(row[n..]) &&
            Expand(p) == row[..n] && |PacketBytes(p)| <= 2 * n &&
            row[..n] + row[n..] == row
  {
    var n := RunFrom(row, 1);
    if n >= 2 {
      assert Expand(Fill(row[0], n)) == row[..n];
    }
    assert row[..n] + row[n..] == row;
  }

  /** A row encoded by `Pack` decodes back to itself, consuming exactly its encoding. */
  lemma DecodePackedRow(data: seq<byte>, pos: nat, row: seq<byte>)
    requires Stored(data, pos, Encode(Pack(row)))
    ensures DecodeRow(data, pos, |Encode(Pack(row))|) == Ok(Parsed(row, pos + |Encode(Pack(row))|))
  {
    hide *;
    DecodeEncodedRow(data, pos, Pack(row));
    PackExpands(row);
  }

  predicate RowsWellFormed(rows: seq<seq<Packet>>)
  {
    forall k :: 0 <= k < |rows| ==> AllWellFormed(rows[k])
  }

  /** The declared compressed length of each encoded row. */
  function EncodedLengths(rows: seq<seq<Packet>>): (lengths: seq<int>)
    ensures |lengths| == |rows|
    ensures forall k :: 0 <= k < |rows| ==> lengths[k] == |Encode(rows[k])|
    decreases |rows|
  {
    if rows == [] then [] else [|Encode(rows[0])|] + EncodedLengths(rows[1..])
  }

  /** The encoded rows, one after another. */
  function EncodeRows(rows: seq<seq<Packet>>): seq<byte>
    decreases |rows|
  {
    if rows == [] then [] else Encode(rows[0]) + EncodeRows(rows[1..])
  }

  /** The bytes the rows stand for, one row after another. */
  function ExpandRows(rows: seq<seq<Packet>>): seq<byte>
    decreases |rows|
  {
    if rows == [] then [] else ExpandAll(rows[0]) + ExpandRows(rows[1..])
  }

  lemma RowsCons(rows: seq<seq<Packet>>)
    requires rows != []
    ensures EncodeRows(rows) == Encode(rows[0]) + EncodeRows(rows[1..])
    ensures ExpandRows(rows) == ExpandAll(rows[0]) + ExpandRows(rows[1..])
    ensures EncodedLengths(rows) == [|Encode(rows[0])|] + EncodedLengths(rows[1..])
  {
  }

  lemma RowsWellFormedTail(rows: seq<seq<Packet>>)
    requires rows != [] && RowsWellFormed(rows)
    ensures AllWellFormed(rows[0]) && RowsWellFormed(rows[1..])
  {
    assert forall k :: 0 <= k < |rows[1..]| ==> rows[1..][k] == rows[k + 1];
  }

  /** Encoded rows decode back to the bytes they stand for, one after another. */
  lemma {:induction false} DecodeEncodedRows(data: seq<byte>, pos: nat, rows: seq<seq<Packet>>)
    requires RowsWellFormed(rows)
    requires Stored(data, pos, EncodeRows(rows))
    ensures DecodeRows(data, pos, EncodedLengths(rows)) == Ok(Parsed(ExpandRows(rows), pos + |EncodeRows(rows)|))
    decreases |rows|
  {
    hide *;
    if rows == [] {
      RowsNothing(data, pos);
    } else {
      RowsWellFormedTail(rows);
      RowsTail(data, pos, rows);
      DecodeEncodedRow(data, pos, rows[0]);
      DecodeEncodedRows(data, pos + |Encode(rows[0])|, rows[1..]);
      RowsThen(data, pos, rows);
    }
  }

  lemma RowsNothing(data: seq<byte>, pos: nat)
    ensures DecodeRows(data, pos, EncodedLengths([])) == Ok(Parsed(ExpandRows([]), pos + |EncodeRows([])|))
  {
  }

  /** Stored encoded rows are the first encoded row, then the others. */
  lemma RowsTail(data: seq<byte>, pos: nat, rows: seq<seq<Packet>>)
    requires rows != [] && Stored(data, pos, EncodeRows(rows))
    ensures Stored(data, pos, Encode(rows[0])) && Stored(data, pos + |Encode(rows[0])|, EncodeRows(rows[1..]))
  {
    hide *;
    RowsCons(rows);
    StoredSplit(data, pos, Encode(rows[0]), EncodeRows(rows[1..]));
  }

  /** Decoding rows: the first row, then the others from where it ends. */
  lemma RowsThen(data: seq<byte>, pos: nat, rows: seq<seq<Packet>>)
    requires rows != []
    requires DecodeRow(data, pos, |Encode(rows[0])|) == Ok(Parsed(ExpandAll(rows[0]), pos + |Encode(rows[0])|))
    requires var mid := pos + |Encode(rows[0])|;
             DecodeRows(data, mid, EncodedLengths(rows[1..])) == Ok(Parsed(ExpandRows(rows[1..]), mid + |EncodeRows(rows[1..])|))
    ensures DecodeRows(data, pos, EncodedLengths(rows)) == Ok(Parsed(ExpandRows(rows), pos + |EncodeRows(rows)|))
  {
    hide *;
    RowsCons(rows);
    var mid := pos + |Encode(rows[0])|;
    RowsStep(data, pos, |Encode(rows[0])|, EncodedLengths(rows[1..]), Parsed(ExpandAll(rows[0]), mid),
             Parsed(ExpandRows(rows[1..]), mid + |EncodeRows(rows[1..])|));
  }

  lemma {:induction false} ExpandRowsLength(rows: seq<seq<Packet>>, width: nat)
    requires forall k :: 0 <= k < |rows| ==> |ExpandAll(rows[k])| == width
    ensures |ExpandRows(rows)| == |rows| * width
    decreases |rows|
  {
    if rows != [] {
      WidthsTail(rows, width);
      hide *;
      ExpandRowsLength(rows[1..], width);
      RowsCons(rows);
      MulStep(|rows|, width);
    }
  }

  lemma WidthsTail(rows: seq<seq<Packet>>, width: nat)
    requires rows != []
    requires forall k :: 0 <= k < |rows| ==> |ExpandAll(rows[k])| == width
    ensures |ExpandAll(rows[0])| == width
    ensures forall k :: 0 <= k < |rows[1..]| ==> |ExpandAll(rows[1..][k])| == width
  {
    assert forall k :: 0 <= k < |rows[1..]| ==> rows[1..][k] == rows[k + 1];
  }

  lemma MulStep(n: nat, w: nat)
    requires n > 0
    ensures n * w == (n - 1) * w + w
  {
  }

  /** The row-length header: one 16-bit big-endian length per row. */
  function LengthHeader(lengths: seq<int>): (h: seq<byte>)
    ensures |h| == 2 * |lengths|
    decreases |lengths|
  {
    if lengths == [] then [] else EncodeU16(lengths[0] % TWO16) + LengthHeader(lengths[1..])
  }

  /** A header of lengths below 0x8000 reads back as those lengths. */
  lemma {:induction false} ReadLengthHeader(data: seq<byte>, pos: nat, lengths: seq<int>)
    requires forall k :: 0 <= k < |lengths| ==> 0 <= lengths[k] < 0x8000
    requires Stored(data, pos, LengthHeader(lengths))
    ensures ReadShortsAt(data, pos, |lengths|) == Ok(Parsed(lengths, pos + 2 * |lengths|))
    decreases |lengths|
  {
    if lengths != [] {
      var h := LengthHeader(lengths);
      assert EncodeU16(lengths[0] % TWO16) == EncodeS16(lengths[0]);
      assert h == EncodeS16(lengths[0]) + LengthHeader(lengths[1..]);
      SliceWithin(data, pos, h, 0, 2);
      assert h[..2] == EncodeS16(lengths[0]);
      S16RoundTrip(lengths[0]);
      SliceWithin(data, pos, h, 2, |h|);
      assert h[2..] == LengthHeader(lengths[1..]);
      ReadLengthHeader(data, pos + 2, lengths[1..]);
      assert [lengths[0]] + lengths[1..] == lengths;
    }
  }

  /** A plane is its row-length header, then its rows. */
  lemma PlaneStep(data: seq<byte>, pos: nat, height: int, width: int, area: nat, lengths: Parsed<seq<int>>, rows: Parsed<seq<byte>>)
    requires height * width == area < MaxSize
    requires ReadShortsAt(data, pos, height) == Ok(lengths)
    requires DecodeRows(data, lengths.next, lengths.value) == Ok(rows)
    ensures RleDecodeAt(data, pos, height, width) == Ok(Parsed(Fit(rows.value, area), rows.next))
  {
  }

  /** Rows of well-formed packets that each expand to `width` bytes and encode to fewer than 0x8000. */
  predicate PlaneRows(rows: seq<seq<Packet>>, width: nat)
  {
    RowsWellFormed(rows) &&
    (forall k :: 0 <= k < |rows| ==> |ExpandAll(rows[k])| == width) &&
    (forall k :: 0 <= k < |rows| ==> |Encode(rows[k])| < 0x8000)
  }

  /**
   * `height` such rows, a plane that fits a `bytearray`, stored at `pos` as
   * the row-length header of their encoded lengths followed by the encoded rows.
   */
  predicate PlaneStored(data: seq<byte>, pos: nat, rows: seq<seq<Packet>>, height: nat, width: nat)
  {
    |rows| == height && PlaneRows(rows, width) && height * width < MaxSize &&
    Stored(data, pos, LengthHeader(EncodedLengths(rows)) + EncodeRows(rows))
  }

  lemma PlaneStoredParts(data: seq<byte>, pos: nat, rows: seq<seq<Packet>>, height: nat, width: nat)
    requires PlaneStored(data, pos, rows, height, width)
    ensures |rows| == height && RowsWellFormed(rows) && height * width < MaxSize
    ensures forall k :: 0 <= k < |rows| ==> |ExpandAll(rows[k])| == width
    ensures forall k :: 0 <= k < |rows| ==> |Encode(rows[k])| < 0x8000
    ensures Stored(data, pos, LengthHeader(EncodedLengths(rows)) + EncodeRows(rows))
  {
  }

  /**
   * The round trip for a plane: `height` rows of `width` bytes each, stored as
   * the row-length header of their encoded lengths followed by the encoded
   * rows, decode to the rows' bytes one after another, and the cursor ends
   * where the encoding ends. Each encoded length must fit the header's
   * signed 16-bit field, and the plane must fit a `bytearray`.
   */
  lemma DecodeEncodedPlane(data: seq<byte>, pos: nat, rows: seq<seq<Packet>>, height: nat, width: nat)
    requires PlaneStored(data, pos, rows, height, width)
    ensures RleDecodeAt(data, pos, height, width) == Ok(Parsed(ExpandRows(rows), pos + 2 * height + |EncodeRows(rows)|))
  {
    hide *;
    PlaneStoredParts(data, pos, rows, height, width);
    ExpandRowsLength(rows, width);
    LengthsBound(rows);
    var lengths := EncodedLengths(rows);
    var header, body := LengthHeader(lengths), EncodeRows(rows);
    var mid := pos + |header|;
    StoredSplit(data, pos, header, body);
    ReadLengthHeader(data, pos, lengths);
    DecodeEncodedRows(data, mid, rows);
    PlaneStep(data, pos, height, width, |ExpandRows(rows)|, Parsed(lengths, mid), Parsed(ExpandRows(rows), mid + |body|));
    FitWhole(ExpandRows(rows));
  }

  lemma LengthsBound(rows: seq<seq<Packet>>)
    requires forall k :: 0 <= k < |rows| ==> |Encode(rows[k])| < 0x8000
    ensures forall k :: 0 <= k < |rows| ==> 0 <= EncodedLengths(rows)[k] < 0x8000
  {
  }

  lemma FitWhole(s: seq<byte>)
    ensures Fit(s, |s|) == s
  {
  }

  /** Each row encoded by `Pack`. */
  function PackAll(rows: seq<seq<byte>>): (packed: seq<seq<Packet>>)
    ensures |packed| == |rows|
    ensures forall k :: 0 <= k < |rows| ==> packed[k] == Pack(rows[k])
    decreases |rows|
  {
    if rows == [] then [] else [Pack(rows[0])] + PackAll(rows[1..])
  }

  /** `Pack`ed rows expand to the rows one after another. */
  lemma {:induction false} PackAllExpands(rows: seq<seq<byte>>)
    ensures RowsWellFormed(PackAll(rows))
    ensures ExpandRows(PackAll(rows)) == Flatten(rows)
    decreases |rows|
  {
    if rows != [] {
      PackAllExpands(rows[1..]);
      PackAllCons(rows);
      hide *;
      PackExpands(rows[0]);
      RowsCons(PackAll(rows));
      FlattenCons(rows);
    }
  }

  lemma PackAllCons(rows: seq<seq<byte>>)
    requires rows != [] && RowsWellFormed(PackAll(rows[1..]))
    ensures PackAll(rows)[0] == Pack(rows[0]) && PackAll(rows)[1..] == PackAll(rows[1..])
    ensures RowsWellFormed(PackAll(rows))
  {
    assert PackAll(rows) == [Pack(rows[0])] + PackAll(rows[1..]);
  }

  lemma FlattenCons(rows: seq<seq<byte>>)
    requires rows != []
    ensures Flatten(rows) == rows[0] + Flatten(rows[1..])
  {
  }

  /** The packed rows of a plane decode to rows of its width, each with a length its header can hold. */
  lemma PackedWidths(rows: seq<seq<byte>>, width: nat)
    requires width < 0x4000
    requires forall k :: 0 <= k < |rows| ==> |rows[k]| == width
    ensures PlaneRows(PackAll(rows), width)
  {
    PackAllExpands(rows);
    forall k | 0 <= k < |rows|
      ensures |ExpandAll(PackAll(rows)[k])| == width && |Encode(PackAll(rows)[k])| < 0x8000
    {
      PackExpands(rows[k]);
    }
  }

  /**
   * The round trip for a plane encoded by `Pack`: rows of `width` bytes,
   * narrower than 0x4000, behind the header of their packed lengths, decode
   * to the image.
   */
  lemma DecodePackedPlane(data: seq<byte>, pos: nat, rows: seq<seq<byte>>, width: nat)
    requires width < 0x4000 && |rows| * width < MaxSize
    requires forall k :: 0 <= k < |rows| ==> |rows[k]| == width
    requires Stored(data, pos, LengthHeader(EncodedLengths(PackAll(rows))) + EncodeRows(PackAll(rows)))
    ensures var end := pos + 2 * |rows| + |EncodeRows(PackAll(rows))|;
            RleDecodeAt(data, pos, |rows|, width) == Ok(Parsed(Flatten(rows), end))
  {
    assert PackedStored(data, pos, rows, width);
    hide *;
    PackAllExpands(rows);
    DecodePackAll(data, pos, rows, width);
  }

  /** Rows of `width` bytes, narrower than 0x4000, whose `Pack` encoding is stored at `pos` behind its header. */
  predicate PackedStored(data: seq<byte>, pos: nat, rows: seq<seq<byte>>, width: nat)
  {
    width < 0x4000 && |rows| * width < MaxSize &&
    (forall k :: 0 <= k < |rows| ==> |rows[k]| == width) &&
    Stored(data, pos, LengthHeader(EncodedLengths(PackAll(rows))) + EncodeRows(PackAll(rows)))
  }

  lemma PackedPlaneStored(data: seq<byte>, pos: nat, rows: seq<seq<byte>>, width: nat)
    requires PackedStored(data, pos, rows, width)
    ensures PlaneStored(data, pos, PackAll(rows), |rows|, width)
  {
    PackedWidths(rows, width);
    hide PlaneRows, Stored;
  }

  /** The plane round trip for the packed rows, before they are read back as the rows themselves. */
  lemma DecodePackAll(data: seq<byte>, pos: nat, rows: seq<seq<byte>>, width: nat)
    requires PackedStored(data, pos, rows, width)
    ensures RleDecodeAt(data, pos, |rows|, width) == Ok(Parsed(ExpandRows(PackAll(rows)), pos + 2 * |rows| + |EncodeRows(PackAll(rows))|))
  {
    hide *;
    PackedPlaneStored(data, pos, rows, width);
    DecodeEncodedPlane(data, pos, PackAll(rows), |rows|, width);
  }

  /** All rows one after another. */
  function Flatten(rows: seq<seq<byte>>): seq<byte>
    decreases |rows|
  {
    if rows == [] then [] else rows[0] + Flatten(rows[1..])
  }

  // ---------------------------------------------------------------------
  // The decoder as the extractor runs it: reading through the file cursor and
  // writing into a zero-filled buffer through a write index.

  /** The row decoder with the packet at `pos` taken off the front. */
  lemma RowUnfold(data: seq<byte>, pos: nat, budget: int)
    requires budget > 0
    ensures PacketAt(data, pos).Err? ==> DecodeRow(data, pos, budget) == Err(PacketAt(data, pos).error)
    ensures PacketAt(data, pos).Ok? ==>
              var packet := PacketAt(data, pos).value;
              DecodeRow(data, pos, budget) == Prepend(packet.value, DecodeRow(data, packet.next, budget - (packet.next - pos)))
  {
  }

  /** The rows decoder with the first row taken off the front. */
  lemma RowsUnfold(data: seq<byte>, pos: nat, lengths: seq<int>)
    requires lengths != []
    ensures DecodeRow(data, pos, lengths[0]).Err? ==>
              DecodeRows(data, pos, lengths) == Err(DecodeRow(data, pos, lengths[0]).error)
    ensures DecodeRow(data, pos, lengths[0]).Ok? ==>
              var row := DecodeRow(data, pos, lengths[0]).value;
              DecodeRows(data, pos, lengths) == Prepend(row.value, DecodeRows(data, row.next, lengths[1..]))
  {
  }

  /** The buffer holds the bytes `out` written from its start, and `dataPos` is the write index. */
  ghost predicate Holds(buffer: array<byte>, dataPos: nat, out: seq<byte>)
    reads buffer
  {
    buffer[..] == Fit(out, buffer.Length) && dataPos == Min(|out|, buffer.Length)
  }

  /** One write of the decoder: stored at the write index if it is still inside the buffer. */
  method Put(buffer: array<byte>, dataPos: nat, ch: byte, ghost out: seq<byte>) returns (next: nat)
    requires Holds(buffer, dataPos, out)
    modifies buffer
    ensures Holds(buffer, next, out + [ch])
  {
    FitAppend(out, ch, buffer.Length);
    if dataPos < buffer.Length {
      buffer[dataPos] := ch;
      return dataPos + 1;
    }
    return dataPos;
  }

  /** The writes of a repeat packet: `ch`, `count` times. */
  method PutRun(buffer: array<byte>, dataPos: nat, ch: byte, count: nat, ghost out: seq<byte>) returns (next: nat)
    requires Holds(buffer, dataPos, out)
    modifies buffer
    ensures Holds(buffer, next, out + Repeat(ch, count))
  {
    next := dataPos;
    assert out + Repeat(ch, 0) == out;
    for c := 0 to count
      invariant Holds(buffer, next, out + Repeat(ch, c))
    {
      next := Put(buffer, next, ch, out + Repeat(ch, c));
      assert out + Repeat(ch, c) + [ch] == out + Repeat(ch, c + 1);
    }
  }

  lemma SliceSnoc(data: seq<byte>, a: nat, b: nat)
    requires a <= b < |data|
    ensures data[a..b + 1] == data[a..b] + [data[b]]
  {
  }

  /** The reads and writes of a literal packet: `count` bytes, each read with `read_char` and written. */
  method CopyLiteral(f: Reader, buffer: array<byte>, dataPos: nat, count: nat, ghost out: seq<byte>)
    returns (r: Result<nat>, next: nat)
    requires count >= 1
    requires Holds(buffer, dataPos, out)
    modifies f, buffer
    ensures r.Ok? <==> LiteralAt(f.data, old(f.pos), count).Ok?
    ensures r.Err? ==> r.error == EndOfFile
    ensures r.Ok? ==> r.value == count && f.pos == old(f.pos) + count &&
                      Holds(buffer, next, out + f.data[old(f.pos)..old(f.pos) + count])
  {
    hide LiteralAt, Fit;
    ghost var start, data := f.pos, f.data;
    ghost var copied: seq<byte> := [];
    next := dataPos;
    var c := 0;
    assert out + copied == out;
    while c < count
      invariant 0 <= c <= count && f.pos == start + c && |copied| == c
      invariant c > 0 ==> start + c <= |data| && copied == data[start..start + c]
      invariant Holds(buffer, next, out + copied)
    {
      var ch := f.ReadChar();
      if ch.Err? {
        return Err(ch.error), next;
      }
      assert Stamp(ch, f.pos) == ReadCharAt(data, start + c);
      assert start + c < |data| && ch.value == data[start + c];
      SliceSnoc(data, start, start + c);
      next := Put(buffer, next, ch.value, out + copied);
      assert out + copied + [ch.value] == out + (copied + [ch.value]);
      copied := copied + [ch.value];
      c := c + 1;
    }
    return Ok(count), next;
  }

  /**
   * One packet read through the cursor and written into the buffer; `r`
   * carries the number of bytes it took from the file.
   */
  method PacketInto(f: Reader, buffer: array<byte>, dataPos: nat, ghost out: seq<byte>)
    returns (r: Result<int>, next: nat, ghost packet: seq<byte>)
    requires Holds(buffer, dataPos, out)
    modifies f, buffer
    ensures r.Err? <==> PacketAt(f.data, old(f.pos)).Err?
    ensures r.Err? ==> r.error == PacketAt(f.data, old(f.pos)).error
    ensures r.Ok? ==> PacketAt(f.data, old(f.pos)) == Ok(Parsed(packet, f.pos)) &&
                      f.pos == old(f.pos) + r.value && Holds(buffer, next, out + packet)
  {
    ghost var here := f.pos;
    next := dataPos;
    packet := [];
    var control := f.ReadChar();
    if control.Err? {
      return Err(control.error), next, packet;
    }
    var n := Signed(control.value);
    if n < 0 {
      if n == -128 {
        NoOpPacket(f.data, here);
        assert out + packet == out;
        return Ok(1), next, packet;
      }
      var ch := f.ReadChar();
      if ch.Err? {
        TruncatedPacket(f.data, here);
        return Err(ch.error), next, packet;
      }
      RepeatPacket(f.data, here);
      packet := Repeat(ch.value, 1 - n);
      next := PutRun(buffer, next, ch.value, 1 - n, out);
      return Ok(2), next, packet;
    }
    var copied;
    copied, next := CopyLiteral(f, buffer, next, n + 1, out);
    if copied.Err? {
      TruncatedPacket(f.data, here);
      return Err(copied.error), next, packet;
    }
    LiteralPacket(f.data, here);
    packet := f.data[here + 1..here + 2 + n];
    return Ok(1 + copied.value), next, packet;
  }

  /**
   * One row: packets are read while the count `j` of bytes consumed is below
   * the row's declared length `budget`; `r` carries the final count.
   */
  method DecodeRowInto(f: Reader, buffer: array<byte>, dataPos: nat, budget: int, ghost out: seq<byte>)
    returns (r: Result<int>, next: nat, ghost row: seq<byte>)
    requires Holds(buffer, dataPos, out)
    modifies f, buffer
    ensures r.Err? <==> DecodeRow(f.data, old(f.pos), budget).Err?
    ensures r.Err? ==> r.error == DecodeRow(f.data, old(f.pos), budget).error
    ensures r.Ok? ==> DecodeRow(f.data, old(f.pos), budget) == Ok(Parsed(row, f.pos)) &&
                      f.pos == old(f.pos) + r.value && Holds(buffer, next, out + row)
  {
    hide PacketAt, Fit;
    ghost var start := f.pos;
    row := [];
    next := dataPos;
    var j := 0;
    assert out + row == out;
    PrependNothing(DecodeRow(f.data, start, budget));
    while j < budget
      invariant f.pos == start + j
      invariant DecodeRow(f.data, start, budget) == Prepend(row, DecodeRow(f.data, f.pos, budget - j))
      invariant Holds(buffer, next, out + row)
      decreases budget - j
    {
      RowUnfold(f.data, f.pos, budget - j);
      var consumed;
      ghost var packet;
      consumed, next, packet := PacketInto(f, buffer, next, out + row);
      if consumed.Err? {
        return Err(consumed.error), next, row;
      }
      j := j + consumed.value;
      PrependTwice(row, packet, DecodeRow(f.data, f.pos, budget - j));
      assert out + row + packet == out + (row + packet);
      row := row + packet;
    }
    assert row + [] == row;
    return Ok(j), next, row;
  }

  /**
   * `abr_rle_decode(f, height, width)`: the row lengths, the buffer, then the
   * rows decoded into it; the result and the cursor are those of `RleDecodeAt`.
   */
  method RleDecode(f: Reader, height: int, width: int) returns (r: Result<seq<byte>>)
    modifies f
    ensures Stamp(r, f.pos) == RleDecodeAt(f.data, old(f.pos), height, width)
  {
    var lengths := f.ReadShorts(height);
    if lengths.Err? {
      return Err(lengths.error);
    }
    if height * width < 0 {
      return Err(NegativeSize);
    }
    if height * width >= MaxSize {
      return Err(TooLarge);
    }
    var scanlines := lengths.value;
    var buffer := new byte[height * width](_ => 0);
    var dataPos := 0;
    ghost var start := f.pos;
    ghost var out: seq<byte> := [];
    assert buffer[..] == Fit(out, buffer.Length);
    PrependNothing(DecodeRows(f.data, start, scanlines));
    var i := 0;
    while i < height
      invariant 0 <= i <= |scanlines| == Nonneg(height)
      invariant DecodeRows(f.data, start, scanlines) == Prepend(out, DecodeRows(f.data, f.pos, scanlines[i..]))
      invariant Holds(buffer, dataPos, out)
    {
      RowsUnfold(f.data, f.pos, scanlines[i..]);
      var row;
      ghost var produced;
      row, dataPos, produced := DecodeRowInto(f, buffer, dataPos, scanlines[i], out);
      if row.Err? {
        return Err(row.error);
      }
      assert scanlines[i..][1..] == scanlines[i + 1..];
      PrependTwice(out, produced, DecodeRows(f.data, f.pos, scanlines[i + 1..]));
      out := out + produced;
      i := i + 1;
    }
    assert out + [] == out;
    return Ok(buffer[..]);
  }
}
