/**
 * What the brush-tip extractor reads out of an ABR file, as functions of the
 * file's bytes and a cursor position. Each loader of `AbrExtractor` is given
 * here as the value it computes; the class in abr_extractor.dfy runs the same
 * reads through a file cursor and is proved to compute these values.
 *
 * The v6 and v10 record loops and the `8BIM` section search decide what to do
 * from the cursor position alone, so a loop that comes back to a position it
 * has already started from runs forever. The functions keep the set of loop
 * positions already seen and answer `Diverges` when one repeats.
 */
module AbrSpec {
  import opened Wrappers
  import opened BigEndian
  import opened Stream
  import PackBits

  /** One extracted brush tip, the dictionary the loaders append. */
  datatype Brush = Brush(index: int, name: string, width: int, height: int, depth: int, spacing: int, data: seq<byte>)

  /** How a call ended: with a value, with an exception, or not at all. */
  datatype Run<+T> = Returns(value: T) | Raises(error: Error) | Diverges

  // ---------------------------------------------------------------------
  // Names

  function DigitChar(d: int): char
    requires 0 <= d < 10
  {
    (('0' as int) + d) as char
  }

  /** The decimal digits of `n`, as `str(n)`. */
  function Digits(n: nat): (s: string)
    ensures 1 <= |s|
    ensures forall k :: 0 <= k < |s| ==> '0' <= s[k] <= '9'
    decreases n
  {
    if n < 10 then [DigitChar(n)] else Digits(n / 10) + [DigitChar(n % 10)]
  }

  /** The number a string of decimal digits denotes. */
  function DigitsValue(s: string): int
    decreases |s|
  {
    if s == [] then 0 else DigitsValue(s[..|s| - 1]) * 10 + (s[|s| - 1] as int - '0' as int)
  }

  lemma {:induction false} DigitsRoundTrip(n: nat)
    ensures DigitsValue(Digits(n)) == n
    decreases n
  {
    if n >= 10 {
      var s := Digits(n);
      assert s[..|s| - 1] == Digits(n / 10);
      DigitsRoundTrip(n / 10);
    }
  }

  /** `f"brush_{n:03d}"`: the number zero-padded to at least three digits. */
  function DefaultName(n: nat): (name: string)
    ensures |name| >= 9 && name[..6] == "brush_"
  {
    var d := Digits(n);
    "brush_" + seq(if |d| < 3 then 3 - |d| else 0, _ => '0') + d
  }

  /** The number in a default name is the brush's index. */
  lemma DefaultNameIndex(n: nat)
    ensures DigitsValue(DefaultName(n)[6..]) == n
  {
    var d := Digits(n);
    var pad := seq(if |d| < 3 then 3 - |d| else 0, _ => '0');
    assert DefaultName(n)[6..] == pad + d;
    LeadingZeros(pad, d);
    DigitsRoundTrip(n);
  }

  lemma {:induction false} LeadingZeros(pad: string, d: string)
    requires forall k :: 0 <= k < |pad| ==> pad[k] == '0'
    ensures DigitsValue(pad + d) == DigitsValue(d)
    decreases |d|
  {
    if d == [] {
      assert pad + d == pad;
      ZerosValue(pad);
    } else {
      assert (pad + d)[..|pad + d| - 1] == pad + d[..|d| - 1];
      LeadingZeros(pad, d[..|d| - 1]);
    }
  }

  lemma {:induction false} ZerosValue(pad: string)
    requires forall k :: 0 <= k < |pad| ==> pad[k] == '0'
    ensures DigitsValue(pad) == 0
    decreases |pad|
  {
    if pad != [] {
      ZerosValue(pad[..|pad| - 1]);
    }
  }

  // ---------------------------------------------------------------------
  // Pieces shared by the loaders

  /** `brush_end` after `while brush_end % 4 != 0: brush_end += 1`. */
  function RoundUp4(n: int): (r: int)
    ensures r % 4 == 0 && n <= r < n + 4
  {
    n + (4 - n % 4) % 4
  }

  /** The rectangle and depth of a sampled brush: four 32-bit edges, then a 16-bit depth. */
  datatype Bounds = Bounds(top: int, left: int, bottom: int, right: int, depth: int) {
    function Width(): int { right - left }
    function Height(): int { bottom - top }
  }

  function BoundsAt(data: seq<byte>, pos: nat): (r: Result<Parsed<Bounds>>)
    ensures r.Ok? <==> pos + 18 <= |data|
    ensures r.Ok? ==> (r.value.next == pos + 18 &&
                       r.value.value == Bounds(S32(data[pos..pos + 4]), S32(data[pos + 4..pos + 8]),
                                               S32(data[pos + 8..pos + 12]), S32(data[pos + 12..pos + 16]),
                                               S16(data[pos + 16..pos + 18])))
  {
    var top :- ReadLongAt(data, pos);
    var left :- ReadLongAt(data, top.next);
    var bottom :- ReadLongAt(data, left.next);
    var right :- ReadLongAt(data, bottom.next);
    var depth :- ReadShortAt(data, right.next);
    Ok(Parsed(Bounds(top.value, left.value, bottom.value, right.value, depth.value), depth.next))
  }

  /** The v6/v10 record header: the bounds, then the compression byte. */
  datatype Header = Header(bounds: Bounds, compress: byte)

  function HeaderAt(data: seq<byte>, pos: nat): (r: Result<Parsed<Header>>)
    ensures r.Ok? <==> pos + 19 <= |data|
    ensures r.Ok? ==> r.value.next == pos + 19 && r.value.value.compress == data[pos + 18]
    ensures r.Ok? ==> r.value.value.bounds == BoundsAt(data, pos).value.value
  {
    var bounds :- BoundsAt(data, pos);
    var compress :- ReadCharAt(data, bounds.next);
    Ok(Parsed(Header(bounds.value, compress.value), compress.next))
  }

  /** The pixels of a brush, or an uncompressed read that came up short. */
  datatype Payload = Pixels(bytes: seq<byte>) | ShortRead

  /** The byte count `width * height * (depth // 8)` of uncompressed pixels. (Dafny's `/` by the positive 8 is Python's floor division.) */
  function RawSize(width: int, height: int, depth: int): int
  {
    width * height * (depth / 8)
  }

  /**
   * The pixel data after the header: `RawSize` raw bytes when `compress` is 0,
   * the run-length decoder otherwise. A raw size that `read` refuses raises,
   * and so does a decoder failure.
   */
  function PayloadAt(data: seq<byte>, pos: nat, width: int, height: int, depth: int, compress: byte): (r: Result<Parsed<Payload>>)
    ensures compress == 0 ==> (r.Ok? <==> -1 <= RawSize(width, height, depth) < MaxSize)
    ensures compress == 0 && r.Err? ==> r.error == if RawSize(width, height, depth) < -1 then BadLength else TooLarge
    ensures compress == 0 && r.Ok? ==>
              (r.value.value.Pixels? <==> 0 <= RawSize(width, height, depth) <= Remaining(data, pos))
    ensures compress == 0 && r.Ok? && r.value.value.Pixels? ==>
              var size := RawSize(width, height, depth);
              |r.value.value.bytes| == size && (size > 0 ==> r.value.value.bytes == data[pos..pos + size])
    ensures compress != 0 ==> (r.Ok? <==> PackBits.RleDecodeAt(data, pos, height, width).Ok?)
    ensures compress != 0 && r.Ok? ==> r.value.value == Pixels(PackBits.RleDecodeAt(data, pos, height, width).value.value) &&
                                       |r.value.value.bytes| == height * width
  {
    if compress == 0 then
      var size := RawSize(width, height, depth);
      var raw :- ReadRaw(data, pos, size);
      if |raw.value| != size then Ok(Parsed(ShortRead, raw.next)) else Ok(Parsed(Pixels(raw.value), raw.next))
    else
      var pixels :- PackBits.RleDecodeAt(data, pos, height, width);
      Ok(Parsed(Pixels(pixels.value), pixels.next))
  }

  /** A brush holds exactly the bytes its header calls for under compression byte `compress`. */
  predicate SizedFor(b: Brush, compress: byte)
  {
    |b.data| == if compress == 0 then RawSize(b.width, b.height, b.depth) else b.height * b.width
  }

  /**
   * A brush holds the bytes its header calls for, under the compression byte
   * it was read with; the brush itself does not record which one that was.
   */
  predicate Sized(b: Brush)
  {
    SizedFor(b, 0) || SizedFor(b, 1)
  }

  // ---------------------------------------------------------------------
  // Version 1 and 2: `count` records, each a kind and a size

  /**
   * One pass of the `load_abr_v12` loop for record `i`: `Err` where an
   * exception ends the loop, otherwise the brush appended (if any) and where
   * the cursor was left. Kind 1 (a computed brush) and unknown kinds are
   * skipped by their declared size.
   */
  function V12RecordAt(data: seq<byte>, pos: nat, version: int, i: nat): (r: Result<Parsed<Option<Brush>>>)
    ensures r.Ok? && r.value.value.Some? ==> pos + 2 <= |data| && S16(data[pos..pos + 2]) == 2
    ensures r.Ok? && r.value.value.Some? ==> var b := r.value.value.value;
              b.index == i + 1 && b.height <= 16384 && Sized(b)
  {
    var kind :- ReadShortAt(data, pos);
    var size :- ReadLongAt(data, kind.next);
    if kind.value != 2 then
      var next :- SeekAt(size.next + size.value);
      Ok(Parsed(None, next))
    else
      V12SampledAt(data, size.next, version, i)
  }

  /**
   * The name of a v1/2 sampled record, read at `pos` just after its spacing,
   * and where it ends: in version 2 the UCS-2 text (the default name when that
   * text is empty), otherwise the default name and no bytes at all.
   */
  function NameAt(data: seq<byte>, pos: nat, version: int, i: nat): (r: Result<Parsed<string>>)
    ensures r.Ok? ==> pos <= r.value.next && r.value.value != ""
    ensures version != 2 ==> r == Ok(Parsed(DefaultName(i + 1), pos))
  {
    if version != 2 then Ok(Parsed(DefaultName(i + 1), pos))
    else
      var text :- ReadUcs2TextAt(data, pos);
      Ok(Parsed(if text.value == "" then DefaultName(i + 1) else text.value, text.next))
  }

  /** The rest of a kind 2 (sampled) record, from just after its size. */
  function V12SampledAt(data: seq<byte>, pos: nat, version: int, i: nat): (r: Result<Parsed<Option<Brush>>>)
    ensures r.Ok? && r.value.value.Some? ==> var b := r.value.value.value;
              b.index == i + 1 && b.name != "" && Sized(b) && b.height <= 16384 &&
              (version != 2 ==> b.name == DefaultName(i + 1)) &&
              (version == 2 ==> ReadUcs2TextAt(data, pos + 6).Ok? &&
                                var text := ReadUcs2TextAt(data, pos + 6).value.value;
                                b.name == if text == "" then DefaultName(i + 1) else text)
  {
    var misc :- ReadLongAt(data, pos);
    var spacing :- ReadShortAt(data, misc.next);
    var name :- NameAt(data, spacing.next, version, i);
    var antialiasing :- ReadCharAt(data, name.next);
    var shortBounds :- ReadShortsAt(data, antialiasing.next, 4);
    var bounds :- BoundsAt(data, shortBounds.next);
    var b := bounds.value;
    if b.Height() > 16384 then Ok(Parsed(None, bounds.next))
    else V12PixelsAt(data, bounds.next, i + 1, name.value, spacing.value, b)
  }

  /** The compression byte and pixels of a v1/2 brush, and the brush they make with what was read before. */
  function V12PixelsAt(data: seq<byte>, pos: nat, index: int, name: string, spacing: int, b: Bounds): (r: Result<Parsed<Option<Brush>>>)
    ensures r.Ok? && r.value.value.Some? ==> var brush := r.value.value.value;
              brush.index == index && brush.name == name && brush.spacing == spacing &&
              brush.width == b.Width() && brush.height == b.Height() && brush.depth == b.depth &&
              pos < |data| && SizedFor(brush, data[pos]) && Sized(brush) &&
              PayloadAt(data, pos + 1, b.Width(), b.Height(), b.depth, data[pos]).Ok? &&
              PayloadAt(data, pos + 1, b.Width(), b.Height(), b.depth, data[pos]).value.value == Pixels(brush.data)
    ensures r.Ok? <==> pos < |data| && PayloadAt(data, pos + 1, b.Width(), b.Height(), b.depth, data[pos]).Ok?
    ensures r.Ok? ==> var payload := PayloadAt(data, pos + 1, b.Width(), b.Height(), b.depth, data[pos]).value;
                      r.value.next == payload.next && (r.value.value.Some? <==> payload.value.Pixels?)
  {
    var compress :- ReadCharAt(data, pos);
    var payload :- PayloadAt(data, compress.next, b.Width(), b.Height(), b.depth, compress.value);
    match payload.value
    case ShortRead => Ok(Parsed(None, payload.next))
    case Pixels(pixels) => Ok(Parsed(Some(Brush(index, name, b.Width(), b.Height(), b.depth, spacing, pixels)), payload.next))
  }

  /** Records `i`, `i + 1`, ... below `count`, stopping at the first exception. */
  function V12From(data: seq<byte>, pos: nat, version: int, count: int, i: nat): seq<Brush>
    decreases count - i
  {
    if i >= count then []
    else
      match V12RecordAt(data, pos, version, i)
      case Err(_) => []
      case Ok(step) => AsSeq(step.value) + V12From(data, step.next, version, count, i + 1)
  }

  /** `load_abr_v12(f, version, count)` with the cursor at `pos` */
  function LoadV12(data: seq<byte>, pos: nat, version: int, count: int): seq<Brush>
  {
    V12From(data, pos, version, count, 0)
  }

  // ---------------------------------------------------------------------
  // The `8BIM` section search

  const BIM: seq<byte> := [0x38, 0x42, 0x49, 0x4D]   // "8BIM"
  const SAMP: seq<byte> := [0x73, 0x61, 0x6D, 0x70]  // "samp"

  /** A set of positions inside the data has at most as many elements as the data has bytes. */
  lemma {:induction false} BoundedSet(s: set<nat>, n: nat)
    requires forall p | p in s :: p < n
    ensures |s| <= n
    decreases n
  {
    if n == 0 {
      assert s == {};
    } else {
      BoundedSet(s - {n - 1}, n - 1);
    }
  }

  /**
   * `reach_8bim_section(f, name)` from `pos`: `Some(next)` for True, with the
   * cursor just after the section's name, `None` for False. A negative skip
   * raises from the seek, which the search does not catch.
   */
  function SectionFrom(data: seq<byte>, pos: nat, name: seq<byte>, visited: set<nat>): (r: Run<Option<nat>>)
    requires forall p | p in visited :: p < |data|
    decreases |data| - |visited|
  {
    if pos in visited then Diverges
    else
      var tag := ReadRaw(data, pos, 4).value;
      if tag.value != BIM then Returns(None)
      else
        var tagname := ReadRaw(data, tag.next, 4).value;
        if |tagname.value| != 4 then Returns(None)
        else if tagname.value == name then Returns(Some(tagname.next))
        else
          match ReadLongAt(data, tagname.next)
          case Err(_) => Returns(None)
          case Ok(size) =>
            match SeekAt(size.next + size.value)
            case Err(e) => Raises(e)
            case Ok(next) =>
              BoundedSet(visited + {pos}, |data|);
              SectionFrom(data, next, name, visited + {pos})
  }

  function ReachSection(data: seq<byte>, pos: nat, name: seq<byte>): Run<Option<nat>>
  {
    SectionFrom(data, pos, name, {})
  }

  /** A section the search reports found is an `8BIM` block with that name, just before the cursor. */
  lemma {:induction false} SectionFound(data: seq<byte>, pos: nat, name: seq<byte>, visited: set<nat>)
    requires forall p | p in visited :: p < |data|
    requires SectionFrom(data, pos, name, visited).Returns?
    requires SectionFrom(data, pos, name, visited).value.Some?
    ensures var next := SectionFrom(data, pos, name, visited).value.value;
            8 <= next <= |data| && data[next - 8..next - 4] == BIM && data[next - 4..next] == name
    decreases |data| - |visited|
  {
    var tag := ReadRaw(data, pos, 4).value;
    var tagname := ReadRaw(data, tag.next, 4).value;
    if tagname.value != name {
      var size := ReadLongAt(data, tagname.next).value;
      BoundedSet(visited + {pos}, |data|);
      SectionFound(data, size.next + size.value, name, visited + {pos});
    }
  }

  /** Data that does not start with `8BIM` at the cursor has no section: the search says False at once. */
  lemma NoSection(data: seq<byte>, pos: nat, name: seq<byte>)
    requires pos + 4 > |data| || data[pos..pos + 4] != BIM
    ensures ReachSection(data, pos, name) == Returns(None)
  {
  }

  // ---------------------------------------------------------------------
  // Version 6 and 10: records in the `samp` section

  /**
   * What one pass of a v6/v10 record loop did: the brush it appended, whether
   * it moved on to the next brush index, and where the next pass starts
   * (`None` when an exception ended the loop).
   */
  datatype Step = Step(brush: Option<Brush>, counted: bool, next: Option<nat>)

  /** `f.seek(next_brush); continue` */
  function Skip(target: int): (s: Step)
    ensures s.brush.None? && !s.counted && (s.next.Some? <==> target >= 0)
    ensures s.next.Some? ==> s.next.value == target
  {
    Step(None, false, if target >= 0 then Some(target) else None)
  }

  const Stop: Step := Step(None, false, None)

  /** The brush a v6/v10 record yields: spacing 25 and the default name. */
  function SampledBrush(index: nat, b: Bounds, pixels: seq<byte>): Brush
  {
    Brush(index, DefaultName(index), b.Width(), b.Height(), b.depth, 25, pixels)
  }

  /** What every brush a v6/v10 loop appends satisfies. */
  predicate Kept(b: Brush, index: nat)
  {
    b.index == index && b.name == DefaultName(index) && b.spacing == 25 &&
    b.width > 0 && b.height > 0 && Sized(b)
  }

  /** One pass of the `load_abr_v6` loop over the record at `pos`: its header follows a fixed skip. */
  function V6RecordAt(data: seq<byte>, pos: nat, subversion: int, index: nat): (s: Step)
    ensures s.next.Some? ==> pos + 4 <= |data| && s.next.value == pos + 4 + RoundUp4(S32(data[pos..pos + 4]))
    ensures s.brush.Some? ==> s.counted && Kept(s.brush.value, index)
    ensures pos + 4 > |data| ==> s == Stop
  {
    match ReadLongAt(data, pos)
    case Err(_) => Stop
    case Ok(size) => V6Body(data, size.next + (if subversion == 1 then 47 else 301), size.next + RoundUp4(size.value), index)
  }

  /**
   * `brush` is what the header at `at` and the pixels after it make: the
   * header's width, height and depth, and the data `PayloadAt` read there.
   */
  predicate FromHeader(data: seq<byte>, at: nat, brush: Brush)
  {
    HeaderAt(data, at).Ok? &&
    var header := HeaderAt(data, at).value;
    var b := header.value.bounds;
    brush.width == b.Width() && brush.height == b.Height() && brush.depth == b.depth &&
    PayloadAt(data, header.next, b.Width(), b.Height(), b.depth, header.value.compress).Ok? &&
    PayloadAt(data, header.next, b.Width(), b.Height(), b.depth, header.value.compress).value.value == Pixels(brush.data)
  }

  /** The header at `at` reads and gives a positive width and height. */
  predicate PositiveAt(data: seq<byte>, at: nat)
  {
    HeaderAt(data, at).Ok? &&
    HeaderAt(data, at).value.value.bounds.Width() > 0 && HeaderAt(data, at).value.value.bounds.Height() > 0
  }

  /** The pixels after the header at `at`, read as that header says. */
  function BodyPayload(data: seq<byte>, at: nat): Result<Parsed<Payload>>
    requires HeaderAt(data, at).Ok?
  {
    var header := HeaderAt(data, at).value;
    var b := header.value.bounds;
    PayloadAt(data, header.next, b.Width(), b.Height(), b.depth, header.value.compress)
  }

  /** A header of positive size followed by all the pixels it calls for: a record the v6/v10 loops keep. */
  predicate PixelsAt(data: seq<byte>, at: nat)
  {
    PositiveAt(data, at) && BodyPayload(data, at).Ok? && BodyPayload(data, at).value.value.Pixels?
  }

  /** The brush the v6/v10 loops append for a record whose header is at `at`. */
  function BrushAt(data: seq<byte>, at: nat, index: nat): Brush
    requires PixelsAt(data, at)
  {
    SampledBrush(index, HeaderAt(data, at).value.value.bounds, BodyPayload(data, at).value.value.bytes)
  }

  /**
   * The rest of a v6 record once its header position `at` is known. A header
   * or pixel read that fails ends the loop; a non-positive size or a short
   * read goes on to `next_brush` uncounted; all the pixels make a brush.
   */
  function V6Body(data: seq<byte>, at: nat, nextBrush: int, index: nat): (s: Step)
    ensures s.next.Some? ==> nextBrush >= 0 && s.next.value == nextBrush
    ensures s.brush.Some? ==> s.counted && Kept(s.brush.value, index)
    ensures s.brush.Some? ==> HeaderAt(data, at).Ok? && SizedFor(s.brush.value, HeaderAt(data, at).value.value.compress)
    ensures s.brush.Some? ==> FromHeader(data, at, s.brush.value)
    ensures s.brush.Some? <==> PixelsAt(data, at)
    ensures s.brush.Some? ==> s.brush.value == BrushAt(data, at, index)
    ensures s.counted <==> s.brush.Some?
    ensures s.next.Some? <==> nextBrush >= 0 && HeaderAt(data, at).Ok? && (!PositiveAt(data, at) || BodyPayload(data, at).Ok?)
  {
    match HeaderAt(data, at)
    case Err(_) => Stop
    case Ok(header) =>
      var b := header.value.bounds;
      if b.Width() <= 0 || b.Height() <= 0 then Skip(nextBrush)
      else
        match PayloadAt(data, header.next, b.Width(), b.Height(), b.depth, header.value.compress)
        case Err(_) => Stop
        case Ok(payload) =>
          match payload.value
          case ShortRead => Skip(nextBrush)
          case Pixels(pixels) =>
            Step(Some(SampledBrush(index, b, pixels)), true, if nextBrush >= 0 then Some(nextBrush) else None)
  }

  /** A v10 header that the probe accepts as plausible. */
  predicate Plausible(b: Bounds)
  {
    0 < b.Width() < 10000 && 0 < b.Height() < 10000 &&
    b.depth in {1, 8, 16, 24, 32} && b.top >= 0 && b.left >= 0
  }

  predicate AcceptedAt(data: seq<byte>, start: nat, offset: nat)
  {
    BoundsAt(data, start + offset).Ok? && Plausible(BoundsAt(data, start + offset).value.value)
  }

  /** The probe's loop from `offset` on: offsets step by 4 and stay below `limit`. */
  function ProbeFrom(data: seq<byte>, start: nat, limit: int, offset: nat): Option<nat>
    decreases limit - offset
  {
    if offset >= limit then None
    else if AcceptedAt(data, start, offset) then Some(offset)
    else ProbeFrom(data, start, limit, offset + 4)
  }

  /** The brute-force probe of a v10 record of declared `size` whose body starts at `start`. */
  function Probe(data: seq<byte>, start: nat, size: int): Option<nat>
  {
    ProbeFrom(data, start, Min(500, size), 0)
  }

  /** The probe answers the first accepted offset among 0, 4, 8, ... below its limit, or none when none is accepted. */
  lemma {:induction false} ProbeFirst(data: seq<byte>, start: nat, limit: int, offset: nat)
    requires offset % 4 == 0
    ensures var r := ProbeFrom(data, start, limit, offset);
            (r.Some? ==> r.value % 4 == 0 && offset <= r.value < limit && AcceptedAt(data, start, r.value)) &&
            (forall k: nat :: offset <= k < limit && k % 4 == 0 && (r.None? || k < r.value) ==> !AcceptedAt(data, start, k))
    decreases limit - offset
  {
    var r := ProbeFrom(data, start, limit, offset);
    if offset < limit && !AcceptedAt(data, start, offset) {
      ProbeFirst(data, start, limit, offset + 4);
      assert r == ProbeFrom(data, start, limit, offset + 4);
      forall k: nat | offset <= k < limit && k % 4 == 0 && (r.None? || k < r.value)
        ensures !AcceptedAt(data, start, k)
      {
        if k != offset {
          assert offset + 4 <= k;
        }
      }
    }
  }

  /** Where a v10 record's header is read: a fixed skip for subversions 1 and 2, past the probed bounds otherwise. */
  function V10Start(body: nat, subversion: int, probed: Option<nat>): Option<nat>
  {
    if subversion == 1 then Some(body + 47)
    else if subversion == 2 then Some(body + 301)
    else match probed
         case None => None
         case Some(offset) => Some(body + offset + 18)
  }

  /**
   * The rest of a v10 record once its header position `at` is known. Every
   * outcome goes on to `next_brush`; the index moves on when the size is
   * positive and the pixel read raised or gave all the pixels, and only all
   * the pixels make a brush.
   */
  function V10Body(data: seq<byte>, at: nat, nextBrush: int, index: nat): (s: Step)
    ensures s.next.Some? ==> nextBrush >= 0 && s.next.value == nextBrush
    ensures s.next.Some? <==> nextBrush >= 0
    ensures s.counted <==> PositiveAt(data, at) && (BodyPayload(data, at).Err? || BodyPayload(data, at).value.value.Pixels?)
    ensures s.brush.Some? <==> PixelsAt(data, at)
    ensures s.brush.Some? ==> s.brush.value == BrushAt(data, at, index)
    ensures s.brush.Some? ==> (s.counted && Kept(s.brush.value, index) && HeaderAt(data, at).Ok? &&
                               s.brush.value.width == HeaderAt(data, at).value.value.bounds.Width() &&
                               s.brush.value.height == HeaderAt(data, at).value.value.bounds.Height() &&
                               SizedFor(s.brush.value, HeaderAt(data, at).value.value.compress))
    ensures s.brush.Some? ==> FromHeader(data, at, s.brush.value)
  {
    match HeaderAt(data, at)
    case Err(_) => Skip(nextBrush)
    case Ok(header) =>
      var b := header.value.bounds;
      if b.Width() <= 0 || b.Height() <= 0 then Skip(nextBrush)
      else
        var after := if nextBrush >= 0 then Some(nextBrush) else None;
        match PayloadAt(data, header.next, b.Width(), b.Height(), b.depth, header.value.compress)
        case Err(_) => Step(None, true, after)
        case Ok(payload) =>
          match payload.value
          case ShortRead => Skip(nextBrush)
          case Pixels(pixels) => Step(Some(SampledBrush(index, b, pixels)), true, after)
  }

  /** One pass of the `load_abr_v10` loop over the record at `pos`. */
  function V10RecordAt(data: seq<byte>, pos: nat, subversion: int, index: nat): (s: Step)
    ensures s.next.Some? ==> pos + 4 <= |data| && s.next.value == pos + 4 + RoundUp4(S32(data[pos..pos + 4]))
    ensures s.brush.Some? ==> s.counted && Kept(s.brush.value, index)
    ensures pos + 4 > |data| ==> s == Stop
  {
    match ReadLongAt(data, pos)
    case Err(_) => Stop
    case Ok(size) =>
      var nextBrush := size.next + RoundUp4(size.value);
      match V10Start(size.next, subversion, Probe(data, size.next, size.value))
      case None => Skip(nextBrush)
      case Some(at) => V10Body(data, at, nextBrush, index)
  }

  function RecordAt(data: seq<byte>, pos: nat, version: int, subversion: int, index: nat): (s: Step)
    ensures s.next.Some? ==> pos + 4 <= |data| && s.next.value == pos + 4 + RoundUp4(S32(data[pos..pos + 4]))
    ensures s.brush.Some? ==> s.counted && Kept(s.brush.value, index)
  {
    if version == 6 then V6RecordAt(data, pos, subversion, index) else V10RecordAt(data, pos, subversion, index)
  }

  /** Brushes appended before a loop went on as `r`. */
  function Prefix(brushes: seq<Brush>, r: Run<seq<Brush>>): Run<seq<Brush>>
  {
    match r
    case Returns(rest) => Returns(brushes + rest)
    case _ => r
  }

  lemma PrefixNothing(r: Run<seq<Brush>>)
    ensures Prefix([], r) == r
  {
    if r.Returns? {
      assert [] + r.value == r.value;
    }
  }

  lemma PrefixTwice(a: seq<Brush>, b: seq<Brush>, r: Run<seq<Brush>>)
    ensures Prefix(a, Prefix(b, r)) == Prefix(a + b, r)
  {
    if r.Returns? {
      assert a + (b + r.value) == (a + b) + r.value;
    }
  }

  /**
   * The v6/v10 record loop from `pos`, while the cursor is before `end`;
   * `visited` holds the positions it already started a pass from.
   */
  function RecordsFrom(data: seq<byte>, pos: nat, end: int, version: int, subversion: int, index: nat, visited: set<nat>): (r: Run<seq<Brush>>)
    requires forall p | p in visited :: p < |data|
    ensures !r.Raises?
    decreases |data| - |visited|
  {
    if pos >= end then Returns([])
    else if pos in visited then Diverges
    else
      var step := RecordAt(data, pos, version, subversion, index);
      match step.next
      case None => Returns(AsSeq(step.brush))
      case Some(next) =>
        BoundedSet(visited + {pos}, |data|);
        Prefix(AsSeq(step.brush),
               RecordsFrom(data, next, end, version, subversion, if step.counted then index + 1 else index, visited + {pos}))
  }

  /** One pass of the record loop from a position it has not started from before. */
  lemma RecordsStep(data: seq<byte>, pos: nat, end: int, version: int, subversion: int, index: nat, visited: set<nat>, step: Step)
    requires forall p | p in visited :: p < |data|
    requires pos < end && pos !in visited
    requires step == RecordAt(data, pos, version, subversion, index)
    ensures step.next.Some? ==> pos < |data|
    ensures step.next.None? ==> RecordsFrom(data, pos, end, version, subversion, index, visited) == Returns(AsSeq(step.brush))
    ensures step.next.Some? ==>
              (forall p | p in visited + {pos} :: p < |data|) &&
              RecordsFrom(data, pos, end, version, subversion, index, visited) ==
              Prefix(AsSeq(step.brush), RecordsFrom(data, step.next.value, end, version, subversion,
                                                    if step.counted then index + 1 else index, visited + {pos}))
  {
  }

  /**
   * `load_abr_v6` and `load_abr_v10` from `pos`: find the `samp` section, read
   * its size, then loop over its records. A missing section gives no brushes;
   * a section size that cannot be read raises.
   */
  function LoadSampled(data: seq<byte>, pos: nat, version: int, subversion: int): Run<seq<Brush>>
  {
    match ReachSection(data, pos, SAMP)
    case Diverges => Diverges
    case Raises(e) => Raises(e)
    case Returns(None) => Returns([])
    case Returns(Some(at)) =>
      match ReadLongAt(data, at)
      case Err(e) => Raises(e)
      case Ok(size) => RecordsFrom(data, size.next, size.next + size.value, version, subversion, 1, {})
  }

  // ---------------------------------------------------------------------
  // The dispatcher

  /** What `extract_brushes` returned: `Some(brushes)` for True, with `self.brushes` set to them, `None` for False. */
  function Finish(r: Run<seq<Brush>>): Run<Option<seq<Brush>>>
  {
    match r
    case Returns(brushes) => Returns(Some(brushes))
    case Raises(_) => Returns(None)
    case Diverges => Diverges
  }

  /** `extract_brushes()` on a file holding `data`. */
  function ExtractAt(data: seq<byte>): (r: Run<Option<seq<Brush>>>)
    ensures !r.Raises?
    ensures |data| < 4 ==> r == Returns(None)
    ensures |data| >= 4 ==> var version, count := S16(data[0..2]), S16(data[2..4]);
              (version in {1, 2} ==> r == Returns(Some(LoadV12(data, 4, version, count)))) &&
              (version == 6 && count in {1, 2} ==> r == Finish(LoadSampled(data, 4, 6, count))) &&
              (version == 10 ==> r == Finish(LoadSampled(data, 4, 10, count))) &&
              (version == 6 && count !in {1, 2} ==> r == Returns(None)) &&
              (version !in {1, 2, 6, 10} ==> r == Returns(None))
  {
    match ReadShortAt(data, 0)
    case Err(_) => Returns(None)
    case Ok(version) =>
      match ReadShortAt(data, 2)
      case Err(_) => Returns(None)
      case Ok(count) =>
        if version.value == 1 || version.value == 2 then Returns(Some(LoadV12(data, 4, version.value, count.value)))
        else if version.value == 6 then
          if count.value == 1 || count.value == 2 then Finish(LoadSampled(data, 4, 6, count.value)) else Returns(None)
        else if version.value == 10 then Finish(LoadSampled(data, 4, 10, count.value))
        else Returns(None)
  }

  // ---------------------------------------------------------------------
  // Properties of the loaders

  /** A version 1/2 record of any kind but 2 appends nothing and is skipped by its declared size. */
  lemma V12SkipsOtherKinds(data: seq<byte>, pos: nat, version: int, i: nat)
    requires pos + 6 <= |data| && S16(data[pos..pos + 2]) != 2
    ensures var target := pos + 6 + S32(data[pos + 2..pos + 6]);
            V12RecordAt(data, pos, version, i) == if target >= 0 then Ok(Parsed(None, target)) else Err(NegativeSeek)
  {
  }

  /** Where the bounds of a v1/2 sampled record end, from `q` just after its size; the name ends at `n`. */
  predicate FixedPartFits(data: seq<byte>, q: nat, version: int, i: nat)
  {
    NameAt(data, q + 6, version, i).Ok? && NameAt(data, q + 6, version, i).value.next + 27 <= |data|
  }

  /**
   * A v1/2 sampled record, from `q` just after its size, reads `misc` (4
   * bytes), the spacing (2), the name, the antialiasing byte, four shorts (8)
   * and the bounds (18). It raises exactly when these run past the end;
   * otherwise a brush taller than 16384 rows is dropped where its bounds end,
   * and any other goes on to its compression byte and pixels with the name,
   * spacing and bounds read.
   */
  lemma V12SampledSteps(data: seq<byte>, q: nat, version: int, i: nat)
    ensures !FixedPartFits(data, q, version, i) ==> V12SampledAt(data, q, version, i).Err?
    ensures FixedPartFits(data, q, version, i) ==>
              var name := NameAt(data, q + 6, version, i).value;
              var b := BoundsAt(data, name.next + 9).value.value;
              V12SampledAt(data, q, version, i) ==
              if b.Height() > 16384 then Ok(Parsed(None, name.next + 27))
              else V12PixelsAt(data, name.next + 27, i + 1, name.value, S16(data[q + 4..q + 6]), b)
  {
    if FixedPartFits(data, q, version, i) {
      SampledFits(data, q, version, i);
    } else {
      SampledShort(data, q, version, i);
    }
  }

  lemma SampledShort(data: seq<byte>, q: nat, version: int, i: nat)
    requires !FixedPartFits(data, q, version, i)
    ensures V12SampledAt(data, q, version, i).Err?
  {
    hide V12PixelsAt, DefaultName, PayloadAt, SizedFor, Sized, ReadUcs2TextAt, ReadShortsAt, BoundsAt;
    if q + 6 <= |data| && NameAt(data, q + 6, version, i).Ok? {
      var n := NameAt(data, q + 6, version, i).value.next;
      assert ReadLongAt(data, q) == Ok(Parsed(S32(data[q..q + 4]), q + 4));
      assert ReadShortAt(data, q + 4) == Ok(Parsed(S16(data[q + 4..q + 6]), q + 6));
      if n + 9 <= |data| {
        assert ReadShortsAt(data, n + 1, 4).value.next == n + 9;
      }
    }
  }

  lemma SampledFits(data: seq<byte>, q: nat, version: int, i: nat)
    requires FixedPartFits(data, q, version, i)
    ensures var name := NameAt(data, q + 6, version, i).value;
            var b := BoundsAt(data, name.next + 9).value.value;
            V12SampledAt(data, q, version, i) ==
            if b.Height() > 16384 then Ok(Parsed(None, name.next + 27))
            else V12PixelsAt(data, name.next + 27, i + 1, name.value, S16(data[q + 4..q + 6]), b)
  {
    hide V12PixelsAt, DefaultName, PayloadAt, SizedFor, Sized, ReadUcs2TextAt, ReadShortsAt, BoundsAt;
    var n := NameAt(data, q + 6, version, i).value.next;
    assert ReadLongAt(data, q) == Ok(Parsed(S32(data[q..q + 4]), q + 4));
    assert ReadShortAt(data, q + 4) == Ok(Parsed(S16(data[q + 4..q + 6]), q + 6));
    assert ReadCharAt(data, n) == Ok(Parsed(data[n], n + 1));
    assert ReadShortsAt(data, n + 1, 4).value.next == n + 9;
  }

  /**
   * A v1/2 sampled brush taller than 16384 rows is skipped without a seek: the
   * cursor stays at its compression byte, right after its bounds, whatever
   * size the record declared. In version 1 that is 39 bytes into the record;
   * in version 2 the name's bytes come on top.
   */
  lemma V12TallBrush(data: seq<byte>, pos: nat, version: int, i: nat)
    requires pos + 6 <= |data| && S16(data[pos..pos + 2]) == 2
    requires FixedPartFits(data, pos + 6, version, i)
    requires var n := NameAt(data, pos + 12, version, i).value.next;
             S32(data[n + 17..n + 21]) - S32(data[n + 9..n + 13]) > 16384
    ensures V12RecordAt(data, pos, version, i) == Ok(Parsed(None, NameAt(data, pos + 12, version, i).value.next + 27))
  {
    hide V12RecordAt, V12SampledAt, V12PixelsAt, NameAt, ReadUcs2TextAt, PayloadAt, DefaultName;
    V12KindTwo(data, pos, version, i);
    V12SampledSteps(data, pos + 6, version, i);
    assert NameAt(data, pos + 6 + 6, version, i) == NameAt(data, pos + 12, version, i);
  }

  /** A record of kind 2 is its sampled part, read from just after its size. */
  lemma V12KindTwo(data: seq<byte>, pos: nat, version: int, i: nat)
    requires pos + 6 <= |data| && S16(data[pos..pos + 2]) == 2
    ensures V12RecordAt(data, pos, version, i) == V12SampledAt(data, pos + 6, version, i)
  {
    hide V12SampledAt;
  }

  /** In version 1 the cursor stays 39 bytes into a tall brush's record. */
  lemma V1TallBrush(data: seq<byte>, pos: nat, i: nat)
    requires pos + 39 <= |data| && S16(data[pos..pos + 2]) == 2
    requires S32(data[pos + 29..pos + 33]) - S32(data[pos + 21..pos + 25]) > 16384
    ensures V12RecordAt(data, pos, 1, i) == Ok(Parsed(None, pos + 39))
  {
    hide V12RecordAt, V12SampledAt, V12PixelsAt, ReadUcs2TextAt, PayloadAt, DefaultName;
    V12TallBrush(data, pos, 1, i);
  }

  /** Brush indices increase along the list. */
  predicate Ascending(bs: seq<Brush>)
  {
    forall k, m :: 0 <= k < m < |bs| ==> bs[k].index < bs[m].index
  }

  /** A brush put before ascending brushes of larger index keeps them ascending. */
  lemma AscendingPrepend(first: seq<Brush>, rest: seq<Brush>)
    requires |first| <= 1 && Ascending(rest)
    requires forall b | b in rest :: first != [] ==> first[0].index < b.index
    ensures Ascending(first + rest)
  {
    var bs := first + rest;
    forall k, m | 0 <= k < m < |bs|
      ensures bs[k].index < bs[m].index
    {
      assert bs[m] == rest[m - |first|];
      if k >= |first| {
        assert bs[k] == rest[k - |first|];
      }
    }
  }

  /**
   * The brushes of records `i` on: their indices lie in `i + 1 .. count` and
   * increase, and each has a height of at most 16384 and the bytes its header
   * calls for.
   */
  lemma {:induction false} V12Brushes(data: seq<byte>, pos: nat, version: int, count: int, i: nat)
    ensures var bs := V12From(data, pos, version, count, i);
            (forall b | b in bs :: i < b.index <= count && b.height <= 16384 && Sized(b)) && Ascending(bs)
    decreases count - i
  {
    hide V12RecordAt;
    if i < count {
      var r := V12RecordAt(data, pos, version, i);
      if r.Ok? {
        var step := r.value;
        V12Brushes(data, step.next, version, count, i + 1);
        AscendingPrepend(AsSeq(step.value), V12From(data, step.next, version, count, i + 1));
      }
    }
  }

  /**
   * The brushes of a v6/v10 loop: each is a kept brush (default name, spacing
   * 25, positive size, the bytes its header calls for), and their indices,
   * from `index` on, increase.
   */
  lemma {:induction false} RecordsKept(data: seq<byte>, pos: nat, end: int, version: int, subversion: int, index: nat, visited: set<nat>)
    requires forall p | p in visited :: p < |data|
    requires RecordsFrom(data, pos, end, version, subversion, index, visited).Returns?
    ensures var bs := RecordsFrom(data, pos, end, version, subversion, index, visited).value;
            (forall b | b in bs :: index <= b.index && Kept(b, b.index)) && Ascending(bs)
    decreases |data| - |visited|
  {
    if pos < end && pos !in visited {
      var step := RecordAt(data, pos, version, subversion, index);
      if step.next.Some? {
        var index' := if step.counted then index + 1 else index;
        BoundedSet(visited + {pos}, |data|);
        RecordsKept(data, step.next.value, end, version, subversion, index', visited + {pos});
        var rest := RecordsFrom(data, step.next.value, end, version, subversion, index', visited + {pos}).value;
        AscendingPrepend(AsSeq(step.brush), rest);
      }
    }
  }

  /**
   * A record whose stride brings the cursor back to its own start (a declared
   * size between -7 and -4) makes the loop run forever.
   */
  lemma SelfLoop(data: seq<byte>, pos: nat, end: int, version: int, subversion: int, index: nat, visited: set<nat>)
    requires forall p | p in visited :: p < |data|
    requires pos < end && pos !in visited
    requires RecordAt(data, pos, version, subversion, index).next == Some(pos)
    ensures RecordsFrom(data, pos, end, version, subversion, index, visited) == Diverges
  {
    BoundedSet(visited + {pos}, |data|);
  }

  /** A v10 file whose `samp` section cannot be found extracts successfully, with no brushes. */
  lemma NoSampleSection(data: seq<byte>)
    requires |data| >= 4 && S16(data[0..2]) == 10
    requires |data| < 8 || data[4..8] != BIM
    ensures ExtractAt(data) == Returns(Some([]))
  {
    NoSection(data, 4, SAMP);
  }

  /** A v6/v10 header with a positive size, uncompressed pixels, and a byte count `read` refuses. */
  predicate RefusedRaw(data: seq<byte>, at: nat)
  {
    HeaderAt(data, at).Ok? &&
    var h := HeaderAt(data, at).value.value;
    h.bounds.Width() > 0 && h.bounds.Height() > 0 && h.compress == 0 &&
    !(-1 <= RawSize(h.bounds.Width(), h.bounds.Height(), h.bounds.depth) < MaxSize)
  }

  /**
   * A v6 record whose uncompressed byte count `read` refuses (below -1, or
   * 2^63 and more) raises out of the loop: the pass appends nothing and the
   * loop ends.
   */
  lemma V6RefusedRead(data: seq<byte>, at: nat, nextBrush: int, index: nat)
    requires RefusedRaw(data, at)
    ensures V6Body(data, at, nextBrush, index) == Stop
  {
  }

  /**
   * A v10 record whose uncompressed byte count `read` refuses is caught by the
   * loop: nothing is appended, the brush index still moves on, and the loop
   * seeks to the next record.
   */
  lemma V10RefusedRead(data: seq<byte>, at: nat, nextBrush: int, index: nat)
    requires RefusedRaw(data, at)
    ensures V10Body(data, at, nextBrush, index) == Step(None, true, if nextBrush >= 0 then Some(nextBrush) else None)
  {
  }

  /** A v6 record reads its header 47 bytes past its size field in subversion 1, 301 bytes past it otherwise. */
  lemma V6RecordBody(data: seq<byte>, pos: nat, subversion: int, index: nat)
    requires pos + 4 <= |data|
    ensures V6RecordAt(data, pos, subversion, index) ==
            V6Body(data, pos + 4 + (if subversion == 1 then 47 else 301), pos + 4 + RoundUp4(S32(data[pos..pos + 4])), index)
  {
    hide V6Body, RoundUp4;
  }

  /** A v10 record reads its header where `V10Start` puts it. */
  lemma V10RecordBody(data: seq<byte>, pos: nat, subversion: int, index: nat, at: nat)
    requires pos + 4 <= |data|
    requires V10Start(pos + 4, subversion, Probe(data, pos + 4, S32(data[pos..pos + 4]))) == Some(at)
    ensures V10RecordAt(data, pos, subversion, index) ==
            V10Body(data, at, pos + 4 + RoundUp4(S32(data[pos..pos + 4])), index)
  {
    hide V10Body, ProbeFrom, RoundUp4;
  }

  /**
   * After the probe accepts an offset, a v10 record of another subversion does
   * not read the bounds it accepted: it reads the record's header 18 bytes
   * further on, where the bounds it accepted end.
   */
  lemma V10ReadsPastProbe(data: seq<byte>, pos: nat, subversion: int, index: nat, offset: nat)
    requires subversion != 1 && subversion != 2 && pos + 4 <= |data|
    requires Probe(data, pos + 4, S32(data[pos..pos + 4])) == Some(offset)
    ensures V10RecordAt(data, pos, subversion, index) ==
            V10Body(data, pos + 4 + offset + 18, pos + 4 + RoundUp4(S32(data[pos..pos + 4])), index)
  {
    hide V10RecordAt, V10Body, ProbeFrom;
    V10RecordBody(data, pos, subversion, index, pos + 4 + offset + 18);
  }

  /**
   * A v10 record of another subversion whose probe finds no plausible bounds
   * appends nothing, is not counted, and goes on to `next_brush`.
   */
  lemma V10ProbeMiss(data: seq<byte>, pos: nat, subversion: int, index: nat)
    requires subversion != 1 && subversion != 2 && pos + 4 <= |data|
    requires Probe(data, pos + 4, S32(data[pos..pos + 4])) == None
    ensures V10RecordAt(data, pos, subversion, index) == Skip(pos + 4 + RoundUp4(S32(data[pos..pos + 4])))
  {
    hide V10Body, ProbeFrom, RoundUp4, Skip;
  }
}
