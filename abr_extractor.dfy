/**
 * The brush-tip extractor as the source runs it: the loaders read through a
 * file cursor, append to a list of brushes in `for`/`while` loops and seek
 * from record to record, and `extract_brushes` stores what the loader
 * returned in the extractor's `brushes` field. Every method is proved to
 * compute what the functions of `AbrSpec` say of the same bytes and cursor.
 *
 * Where the source would loop forever (a record or a section whose declared
 * size brings the cursor back to where the loop already was), the methods
 * notice the repeated position and answer `Diverges` instead.
 */
module BrushTipExtract {
  import opened Wrappers
  import opened BigEndian
  import opened Stream
  import opened AbrSpec
  import PackBits
  import opened BrushImages

  /** `brush_end` rounded up by the source's `while brush_end % 4 != 0: brush_end += 1` loop. */
  method AlignUp(n: int) returns (r: int)
    ensures r == RoundUp4(n)
  {
    r := n;
    while r % 4 != 0
      invariant n <= r <= RoundUp4(n)
      decreases RoundUp4(n) - r
    {
      r := r + 1;
    }
  }

  /** The four 32-bit edges and the 16-bit depth of a sampled brush. */
  method ReadBounds(f: Reader) returns (r: Result<Bounds>)
    modifies f
    ensures Stamp(r, f.pos) == BoundsAt(f.data, old(f.pos))
  {
    var top := f.ReadLong();
    if top.Err? {
      return Err(top.error);
    }
    var left := f.ReadLong();
    if left.Err? {
      return Err(left.error);
    }
    var bottom := f.ReadLong();
    if bottom.Err? {
      return Err(bottom.error);
    }
    var right := f.ReadLong();
    if right.Err? {
      return Err(right.error);
    }
    var depth := f.ReadShort();
    if depth.Err? {
      return Err(depth.error);
    }
    return Ok(Bounds(top.value, left.value, bottom.value, right.value, depth.value));
  }

  /** The bounds, then the compression byte. */
  method ReadHeader(f: Reader) returns (r: Result<Header>)
    modifies f
    ensures Stamp(r, f.pos) == HeaderAt(f.data, old(f.pos))
  {
    var bounds := ReadBounds(f);
    if bounds.Err? {
      return Err(bounds.error);
    }
    var compress := f.ReadChar();
    if compress.Err? {
      return Err(compress.error);
    }
    return Ok(Header(bounds.value, compress.value));
  }

  /** The pixel data: raw bytes when `compress` is 0, the run-length decoder otherwise. */
  method ReadPayload(f: Reader, width: int, height: int, depth: int, compress: byte) returns (r: Result<Payload>)
    modifies f
    ensures Stamp(r, f.pos) == PayloadAt(f.data, old(f.pos), width, height, depth, compress)
  {
    if compress == 0 {
      var size := width * height * (depth / 8);
      var raw := f.Read(size);
      if raw.Err? {
        return Err(raw.error);
      }
      if |raw.value| != size {
        return Ok(ShortRead);
      }
      return Ok(Pixels(raw.value));
    }
    var pixels := PackBits.RleDecode(f, height, width);
    if pixels.Err? {
      return Err(pixels.error);
    }
    return Ok(Pixels(pixels.value));
  }

  /** The body of the `load_abr_v12` loop for record `i`. */
  method V12Record(f: Reader, version: int, i: nat) returns (r: Result<Option<Brush>>)
    modifies f
    ensures Stamp(r, f.pos) == V12RecordAt(f.data, old(f.pos), version, i)
  {
    var kind := f.ReadShort();
    if kind.Err? {
      return Err(kind.error);
    }
    var size := f.ReadLong();
    if size.Err? {
      return Err(size.error);
    }
    if kind.value == 1 {
      // a computed brush
      var s := f.SeekRelative(size.value);
      if s.Err? {
        return Err(s.error);
      }
      return Ok(None);
    } else if kind.value == 2 {
      r := V12Sampled(f, version, i);
    } else {
      // an unknown kind
      var s := f.SeekRelative(size.value);
      if s.Err? {
        return Err(s.error);
      }
      return Ok(None);
    }
  }

  /** A sampled (kind 2) record of `load_abr_v12`, from just after its size. */
  method V12Sampled(f: Reader, version: int, i: nat) returns (r: Result<Option<Brush>>)
    modifies f
    ensures Stamp(r, f.pos) == V12SampledAt(f.data, old(f.pos), version, i)
  {
    var misc := f.ReadLong();
    if misc.Err? {
      return Err(misc.error);
    }
    var spacing := f.ReadShort();
    if spacing.Err? {
      return Err(spacing.error);
    }
    var name: string := DefaultName(i + 1);
    if version == 2 {
      var text := f.ReadUcs2Text();
      if text.Err? {
        return Err(text.error);
      }
      if text.value != "" {
        name := text.value;
      }
    }
    var antialiasing := f.ReadChar();
    if antialiasing.Err? {
      return Err(antialiasing.error);
    }
    var shortBounds := f.ReadShorts(4);
    if shortBounds.Err? {
      return Err(shortBounds.error);
    }
    var bounds := ReadBounds(f);
    if bounds.Err? {
      return Err(bounds.error);
    }
    var b := bounds.value;
    if b.Height() > 16384 {
      // skipped without a seek
      return Ok(None);
    }
    r := V12Pixels(f, i + 1, name, spacing.value, b);
  }

  /** The compression byte and pixels of a sampled v1/2 brush whose name, spacing and bounds are read. */
  method V12Pixels(f: Reader, index: int, name: string, spacing: int, b: Bounds) returns (r: Result<Option<Brush>>)
    modifies f
    ensures Stamp(r, f.pos) == V12PixelsAt(f.data, old(f.pos), index, name, spacing, b)
  {
    var compress := f.ReadChar();
    if compress.Err? {
      return Err(compress.error);
    }
    var payload := ReadPayload(f, b.Width(), b.Height(), b.depth, compress.value);
    if payload.Err? {
      return Err(payload.error);
    }
    match payload.value
    case ShortRead =>
      return Ok(None);
    case Pixels(pixels) =>
      return Ok(Some(Brush(index, name, b.Width(), b.Height(), b.depth, spacing, pixels)));
  }

  /** `f.seek(next_brush)` ending a pass: the loop goes on from there, or stops when the seek raises. */
  method SkipTo(f: Reader, target: int) returns (s: Step)
    modifies f
    ensures s == Skip(target)
    ensures s.next.Some? ==> f.pos == s.next.value
  {
    var r := f.Seek(target);
    if r.Err? {
      return Stop;
    }
    return Skip(target);
  }

  /** The body of the `load_abr_v6` loop for the record at the cursor. */
  method V6Record(f: Reader, subversion: int, index: nat) returns (s: Step)
    modifies f
    ensures s == V6RecordAt(f.data, old(f.pos), subversion, index)
    ensures s.next.Some? ==> f.pos == s.next.value
  {
    hide V6Body;
    var size := f.ReadLong();
    if size.Err? {
      return Stop;
    }
    var brushEnd := AlignUp(size.value);
    var nextBrush := f.pos + brushEnd;
    var skipped := f.SeekRelative(if subversion == 1 then 47 else 301);
    s := V6Rest(f, nextBrush, index);
  }

  /** A v6 record from its header on, with the position of the next record known. */
  method V6Rest(f: Reader, nextBrush: int, index: nat) returns (s: Step)
    modifies f
    ensures s == V6Body(f.data, old(f.pos), nextBrush, index)
    ensures s.next.Some? ==> f.pos == s.next.value
  {
    var header := ReadHeader(f);
    if header.Err? {
      return Stop;
    }
    var b := header.value.bounds;
    if b.Width() <= 0 || b.Height() <= 0 {
      s := SkipTo(f, nextBrush);
      return;
    }
    var payload := ReadPayload(f, b.Width(), b.Height(), b.depth, header.value.compress);
    if payload.Err? {
      return Stop;
    }
    match payload.value
    case ShortRead =>
      s := SkipTo(f, nextBrush);
    case Pixels(pixels) =>
      var brush := SampledBrush(index, b, pixels);
      var r := f.Seek(nextBrush);
      s := Step(Some(brush), true, if r.Ok? then Some(nextBrush) else None);
  }

  /**
   * The brute-force probe of `load_abr_v10`: seek to each offset 0, 4, 8, ...
   * below `min(500, size)` and try reading bounds there. On success the cursor
   * is left just after the accepted bounds.
   */
  method ProbeOffsets(f: Reader, size: int) returns (found: Option<nat>)
    modifies f
    ensures found == Probe(f.data, old(f.pos), size)
    ensures found.Some? ==> f.pos == old(f.pos) + found.value + 18
  {
    var start := f.pos;
    var limit := Min(500, size);
    var offset: nat := 0;
    while offset < limit
      invariant offset % 4 == 0
      invariant Probe(f.data, start, size) == ProbeFrom(f.data, start, limit, offset)
      decreases limit - offset
    {
      var _ := f.Seek(start + offset);
      var bounds := ReadBounds(f);
      if bounds.Ok? && Plausible(bounds.value) {
        return Some(offset);
      }
      offset := offset + 4;
    }
    return None;
  }

  /** The body of the `load_abr_v10` loop for the record at the cursor. */
  method V10Record(f: Reader, subversion: int, index: nat) returns (s: Step)
    modifies f
    ensures s == V10RecordAt(f.data, old(f.pos), subversion, index)
    ensures s.next.Some? ==> f.pos == s.next.value
  {
    hide V10Body, ProbeFrom;
    var size := f.ReadLong();
    if size.Err? {
      return Stop;
    }
    var brushEnd := AlignUp(size.value);
    var nextBrush := f.pos + brushEnd;
    ghost var body := f.pos;
    ghost var probed := Probe(f.data, body, size.value);
    if subversion == 1 {
      var _ := f.SeekRelative(47);
    } else if subversion == 2 {
      var _ := f.SeekRelative(301);
    } else {
      var found := ProbeOffsets(f, size.value);
      if found.None? {
        s := SkipTo(f, nextBrush);
        return;
      }
    }
    assert V10Start(body, subversion, probed) == Some(f.pos);
    s := V10Rest(f, nextBrush, index);
  }

  /** A v10 record from its header on, with the position of the next record known. */
  method V10Rest(f: Reader, nextBrush: int, index: nat) returns (s: Step)
    modifies f
    ensures s == V10Body(f.data, old(f.pos), nextBrush, index)
    ensures s.next.Some? ==> f.pos == s.next.value
  {
    var header := ReadHeader(f);
    if header.Err? {
      s := SkipTo(f, nextBrush);
      return;
    }
    var b := header.value.bounds;
    if b.Width() <= 0 || b.Height() <= 0 {
      s := SkipTo(f, nextBrush);
      return;
    }
    var payload := ReadPayload(f, b.Width(), b.Height(), b.depth, header.value.compress);
    var brush: Option<Brush> := None;
    if payload.Ok? {
      match payload.value
      case ShortRead =>
        s := SkipTo(f, nextBrush);
        return;
      case Pixels(pixels) =>
        brush := Some(SampledBrush(index, b, pixels));
    }
    var r := f.Seek(nextBrush);
    s := Step(brush, true, if r.Ok? then Some(nextBrush) else None);
  }

  /** One pass of the v6 or v10 record loop. */
  method Record(f: Reader, version: int, subversion: int, index: nat) returns (s: Step)
    modifies f
    ensures s == RecordAt(f.data, old(f.pos), version, subversion, index)
    ensures s.next.Some? ==> f.pos == s.next.value
  {
    if version == 6 {
      s := V6Record(f, subversion, index);
    } else {
      s := V10Record(f, subversion, index);
    }
  }

  /** What `reach_8bim_section` returned, paired with where it left the cursor. */
  function Located(r: Run<bool>, pos: nat): Run<Option<nat>>
  {
    match r
    case Returns(found) => Returns(if found then Some(pos) else None)
    case Raises(e) => Raises(e)
    case Diverges => Diverges
  }

  /**
   * The `while True` loop of `load_abr_v6`/`load_abr_v10` over the records of
   * the `samp` section, from the cursor while it is before `end`. It stops
   * with `Diverges` when a pass would start where an earlier one did.
   */
  method RecordLoop(f: Reader, end: int, version: int, subversion: int) returns (r: Run<seq<Brush>>)
    modifies f
    ensures r == RecordsFrom(f.data, old(f.pos), end, version, subversion, 1, {})
  {
    var brushes: seq<Brush> := [];
    var index: nat := 1;
    var visited: set<nat> := {};
    PrefixNothing(RecordsFrom(f.data, f.pos, end, version, subversion, 1, {}));
    while f.pos < end
      invariant forall p | p in visited :: p < |f.data|
      invariant RecordsFrom(f.data, old(f.pos), end, version, subversion, 1, {}) ==
                Prefix(brushes, RecordsFrom(f.data, f.pos, end, version, subversion, index, visited))
      decreases |f.data| - |visited|
    {
      if f.pos in visited {
        return Diverges;
      }
      var pos := f.pos;
      var step := Record(f, version, subversion, index);
      RecordsStep(f.data, pos, end, version, subversion, index, visited, step);
      if step.next.None? {
        return Returns(brushes + AsSeq(step.brush));
      }
      BoundedSet(visited + {pos}, |f.data|);
      PrefixTwice(brushes, AsSeq(step.brush),
                  RecordsFrom(f.data, f.pos, end, version, subversion, if step.counted then index + 1 else index, visited + {pos}));
      brushes := brushes + AsSeq(step.brush);
      index := if step.counted then index + 1 else index;
      visited := visited + {pos};
    }
    assert brushes + [] == brushes;
    return Returns(brushes);
  }

  /** The extractor object: the brushes its last successful extraction found. */
  class AbrExtractor {
    var brushes: seq<Brush>

    constructor ()
      ensures brushes == []
    {
      brushes := [];
    }

    /** `load_abr_v12(f, version, count)` */
    method LoadAbrV12(f: Reader, version: int, count: int) returns (found: seq<Brush>)
      modifies f
      ensures found == LoadV12(f.data, old(f.pos), version, count)
    {
      found := [];
      var i: nat := 0;
      while i < count
        invariant LoadV12(f.data, old(f.pos), version, count) == found + V12From(f.data, f.pos, version, count, i)
        decreases count - i
      {
        var r := V12Record(f, version, i);
        if r.Err? {
          assert found + [] == found;
          return;
        }
        assert found + (AsSeq(r.value) + V12From(f.data, f.pos, version, count, i + 1)) ==
               (found + AsSeq(r.value)) + V12From(f.data, f.pos, version, count, i + 1);
        found := found + AsSeq(r.value);
        i := i + 1;
      }
      assert found + [] == found;
    }

    /** `reach_8bim_section(f, name)`, reporting `Diverges` where the source would search forever. */
    method Reach8bimSection(f: Reader, name: seq<byte>) returns (r: Run<bool>)
      modifies f
      ensures Located(r, f.pos) == ReachSection(f.data, old(f.pos), name)
    {
      hide ReadRaw, ReadLongAt, SeekAt;
      var visited: set<nat> := {};
      while true
        invariant forall p | p in visited :: p < |f.data|
        invariant ReachSection(f.data, old(f.pos), name) == SectionFrom(f.data, f.pos, name, visited)
        decreases |f.data| - |visited|
      {
        if f.pos in visited {
          return Diverges;
        }
        var pos := f.pos;
        var tag := f.Read(4);
        if |tag.value| != 4 || tag.value != BIM {
          return Returns(false);
        }
        var tagname := f.Read(4);
        if |tagname.value| != 4 {
          return Returns(false);
        }
        if tagname.value == name {
          return Returns(true);
        }
        var size := f.ReadLong();
        if size.Err? {
          return Returns(false);
        }
        var skipped := f.SeekRelative(size.value);
        if skipped.Err? {
          return Raises(skipped.error);
        }
        BoundedSet(visited + {pos}, |f.data|);
        visited := visited + {pos};
      }
    }

    /** The part `load_abr_v6` and `load_abr_v10` share: find `samp`, read its size, loop over its records. */
    method LoadSampledSection(f: Reader, version: int, subversion: int) returns (r: Run<seq<Brush>>)
      modifies f
      ensures r == LoadSampled(f.data, old(f.pos), version, subversion)
    {
      hide RecordsFrom, SectionFrom;
      var found := Reach8bimSection(f, SAMP);
      if found.Diverges? {
        return Diverges;
      } else if found.Raises? {
        return Raises(found.error);
      } else if !found.value {
        return Returns([]);
      }
      var size := f.ReadLong();
      if size.Err? {
        return Raises(size.error);
      }
      r := RecordLoop(f, f.pos + size.value, version, subversion);
    }

    /** `load_abr_v6(f, subversion)` */
    method LoadAbrV6(f: Reader, subversion: int) returns (r: Run<seq<Brush>>)
      modifies f
      ensures r == LoadSampled(f.data, old(f.pos), 6, subversion)
    {
      r := LoadSampledSection(f, 6, subversion);
    }

    /** `load_abr_v10(f, subversion)` */
    method LoadAbrV10(f: Reader, subversion: int) returns (r: Run<seq<Brush>>)
      modifies f
      ensures r == LoadSampled(f.data, old(f.pos), 10, subversion)
    {
      r := LoadSampledSection(f, 10, subversion);
    }

    /**
     * `extract_brushes()` on a file holding `contents`: `Returns(true)` with
     * `brushes` set to what the loader found, or `Returns(false)` with
     * `brushes` unchanged.
     */
    method ExtractBrushes(contents: seq<byte>) returns (r: Run<bool>)
      modifies this
      ensures r.Returns? <==> ExtractAt(contents).Returns?
      ensures r == Returns(true) <==> ExtractAt(contents).Returns? && ExtractAt(contents).value.Some?
      ensures r == Returns(true) ==> brushes == ExtractAt(contents).value.value
      ensures r != Returns(true) ==> brushes == old(brushes)
    {
      var f := new Reader(contents);
      var version := f.ReadShort();
      if version.Err? {
        return Returns(false);
      }
      var count := f.ReadShort();
      if count.Err? {
        return Returns(false);
      }
      var loaded: Run<seq<Brush>>;
      if version.value == 1 || version.value == 2 {
        var found := LoadAbrV12(f, version.value, count.value);
        loaded := Returns(found);
      } else if version.value == 6 {
        if count.value == 1 || count.value == 2 {
          loaded := LoadAbrV6(f, count.value);
        } else {
          return Returns(false);
        }
      } else if version.value == 10 {
        loaded := LoadAbrV10(f, count.value);
      } else {
        return Returns(false);
      }
      match loaded
      case Returns(found) =>
        brushes := found;
        return Returns(true);
      case Raises(_) =>
        return Returns(false);
      case Diverges =>
        return Diverges;
    }

    /**
     * The loop of `save_brush_images` over the extracted brushes, up to the
     * image library: what each brush turns into, in order.
     */
    method SaveBrushImages() returns (tiles: seq<Tile>)
      ensures |tiles| == |brushes|
      ensures forall k :: 0 <= k < |tiles| ==> tiles[k] == TileOf(brushes[k])
    {
      tiles := [];
      if brushes == [] {
        return;
      }
      for k := 0 to |brushes|
        invariant |tiles| == k
        invariant forall j :: 0 <= j < k ==> tiles[j] == TileOf(brushes[j])
      {
        var t := PrepareImage(brushes[k]);
        tiles := tiles + [t];
      }
    }
  }
}
