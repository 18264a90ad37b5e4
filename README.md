# PSBrushExtract in Dafny

This project models the byte decoders of PSBrushExtract, a tool that pulls
brush tips and brush settings out of Photoshop `.abr` brush files, and proves
properties of the model.

- **The brush-tip extractor** is modelled from `psbrushtipextract.py`, class
  `AbrExtractor`. The class reads the file through a cursor. It decodes
  big-endian integers and UCS-2 names. It runs the PackBits-style scanline
  decoder (`abr_rle_decode`). It loads version 1/2 brush lists and the `samp`
  section of version 6 and 10 files, and finds that section with the `8BIM`
  search. `extract_brushes` dispatches on the header. Before a brush is saved,
  `save_brush_images` checks its size and splits 32-bit pixels into RGB and
  alpha.
- **The descriptor scanner** is modelled from `parse_brush_parameters` in
  `PSBrushExtract.py`. It finds the first `Objc`, then walks the bytes looking
  for the eight type markers (`UntF`, `bool`, `long`, `doub`, `enum`, `TEXT`,
  `Objc`, `VlLs`). For each marker it emits a `(key, type, value)` tuple, and
  it steps one byte when no marker matches.
- **The development variant** of that scanner is modelled from
  `psbrushextract_dev.py`. It differs in `enum`, `Objc` and `VlLs`.

Files:

- `wrappers.dfy` holds `Option`.
- `bigendian.dfy` holds the byte type and the big-endian signed and unsigned
  decoders. Each decoder has its encoder and both round trips.
- `utf16.dfy` is a strict UTF-16BE decoder with its encoder and round trip. It
  also strips trailing NULs.
- `stream.dfy` holds the cursor reads as functions of `(data, pos)` and the
  `Reader` class that performs them. Each `Reader` method is proved equal to
  its function.
- `packbits.dfy` holds the scanline decoder. A pure specification
  (`DecodeRow`, `RleDecodeAt`) sits beside the imperative decoder, which
  writes into an `array` and is proved against that specification. The file
  also describes the packets an encoder may write. Any well-formed packets
  decode to what they stand for, runs and literals of up to 128 bytes
  included. This holds for one row and for a whole plane behind its length
  header. An encoder, `Pack`, is proved to write such packets.
- `abr_spec.dfy` holds the loaders as functions of the file bytes.
  `abr_extractor.dfy` holds the class `AbrExtractor`, whose methods are proved
  to compute those functions.
- `brush_pixels.dfy` holds the image preparation.
- `markers.dfy` holds what both scanners share: markers, key recovery,
  fixed-width records, hex dumps and the result tuple.
- `descriptor.dfy` holds the released scanner and `descriptor_dev.dfy` the
  development one.

Some loops can run forever. The v6/v10 record loop, when a record's size
brings the cursor back to where the record started, and the `8BIM` section
search both decide everything from the cursor position. So the model records
the loop positions it has already visited and answers `Diverges` when one
repeats (`AbrSpec.SelfLoop`). Python would hang there instead.

### Where the code and its description differ

The model follows the code in each of these cases.

- **Too-short fixed records.** A `UntF`, `long`, `bool`, `doub`, `TEXT` or
  `enum` marker without enough bytes after it is not an error in either
  scanner. The marker fails its length test, no entry is made, and the scan
  moves one byte on (`PSBrushExtract.py:49-95`, `:172-173`).
- **UCS-2 names that do not decode.** `read_ucs2_text` returns `"Unknown"`
  when a name does not decode. It has no UTF-8 fallback.
- **Compressed pixel data.** Data run through the run-length decoder is never
  rejected for its size. It is cut or zero-padded to `width*height` bytes.
  Uncompressed data that comes up short is skipped. A raw byte count that
  `read` refuses raises: below -1 that is ValueError, and 2^63 or more is
  OverflowError. v6 leaves the loop on it. v10 catches it, counts the brush
  and goes on (`AbrSpec.V6RefusedRead`, `AbrSpec.V10RefusedRead`).
- **The v10 probe.** In v10 with a subversion other than 1 or 2, the record
  header is read again where the cursor stands after the probe. That is 18
  bytes past the accepted offset, not at it (`psbrushtipextract.py:292-322`,
  `AbrSpec.V10ReadsPastProbe`).
- **Header read failures in v10.** A failed header read in a v10 record skips
  that record (`psbrushtipextract.py:317-327`). It does not stop the loop.
- **The development scanner's `enum` record.** It always dumps exactly the
  four code bytes and resumes at `pos + 8`. Its lookahead starts at
  `pos + 8`, so `min` can never move it (`psbrushextract_dev.py:102-109`).
  The model keeps this behaviour. `DescriptorScanDev.DelimitedEnumAt` models
  the dump that reaches the next marker, as the comment at line 101
  describes. `EnumResumesAtMarker` shows that both resume points lead to the
  same later results. `EnumDumpStopsShort` gives an input where the two dumps
  differ.

## Model

| member | source | states |
|---|---|---|
| BigEndian.S16 | psbrushtipextract.py:24-28 | `>h` gives a value in [-32768, 32768) that is negative exactly when the top bit is set and is congruent to the unsigned reading mod 2^16 |
| BigEndian.S32 | psbrushtipextract.py:30-34 | `>l` gives a value in [-2^31, 2^31) that is negative exactly when the top bit is set and is congruent to the unsigned reading mod 2^32 |
| BigEndian.U32 | PSBrushExtract.py:51 | `>I` gives a value in [0, 2^32) |
| BigEndian.U16RoundTrip | psbrushtipextract.py:24-28 | decoding the encoding of any 16-bit unsigned value gives it back |
| BigEndian.U16Inverse | psbrushtipextract.py:24-28 | encoding the unsigned value of any 2 bytes gives the bytes back |
| BigEndian.S16RoundTrip | psbrushtipextract.py:24-28 | decoding the encoding of any 16-bit signed value gives it back |
| BigEndian.S16Inverse | psbrushtipextract.py:24-28 | encoding the decoded value of any 2 bytes gives the bytes back |
| BigEndian.S32RoundTrip | psbrushtipextract.py:30-34 | decoding the encoding of any 32-bit signed value gives it back |
| BigEndian.S32Inverse | psbrushtipextract.py:30-34 | encoding the decoded value of any 4 bytes gives the bytes back |
| BigEndian.U32RoundTrip | PSBrushExtract.py:51 | decoding the encoding of any 32-bit unsigned value gives it back |
| BigEndian.U32Inverse | PSBrushExtract.py:51 | encoding the unsigned value of any 4 bytes gives the bytes back |
| Utf16.StripTrailingNul | psbrushtipextract.py:46 | `rstrip('\x00')` keeps a prefix that does not end in NUL, and everything removed is NUL |
| Utf16.DecodeEncodeUnits | psbrushtipextract.py:46 | the strict UTF-16 decoder inverts the encoder on code units, surrogate pairs included |
| Utf16.DecodeEncode | psbrushtipextract.py:46 | `decode('utf-16be')` of the big-endian encoding of any string gives the string back |
| Utf16.UnitsOfBytes | psbrushtipextract.py:46 | splitting the bytes of encoded code units back into big-endian units gives the units back |
| Stream.ReadRaw | psbrushtipextract.py:139-142 | `f.read(n)` reads to the end of the file for n = -1, raises ValueError for n < -1 and OverflowError for n >= 2^63; otherwise it returns min(n, remaining) bytes, exactly the bytes at the cursor, and moves the cursor past them |
| Stream.ReadShortsAt | psbrushtipextract.py:51-53 | reading `height` shorts succeeds exactly when 2*height bytes remain (or height <= 0), yields that many values and advances 2*height |
| Stream.ShortsElements | psbrushtipextract.py:51-53 | the k-th scanline length is the signed 16-bit value at pos+2k |
| Stream.ReadUcs2TextAt | psbrushtipextract.py:36-48 | fails with EOF exactly when the length or the text is short; a length <= 0 gives "" after 4 bytes; otherwise the NUL-trimmed decoded text (or "Unknown") and the cursor after 2*length bytes |
| Stream.SeekAt | psbrushtipextract.py:101 | a seek succeeds exactly for a non-negative target and lands on it; a negative one raises |
| Stream.Reader.constructor | psbrushtipextract.py:374 | a freshly opened file is read from position 0 |
| Stream.Reader.Read | psbrushtipextract.py:139 | `f.read(n)` returns, raises and moves exactly as `ReadRaw` says, the refused sizes included |
| Stream.Reader.ReadChar | psbrushtipextract.py:18-22 | returns the byte at the cursor or EOF, and moves as `f.read(1)` does |
| Stream.Reader.ReadShort | psbrushtipextract.py:24-28 | returns the signed big-endian short at the cursor or EOF, and moves as `f.read(2)` does |
| Stream.Reader.ReadLong | psbrushtipextract.py:30-34 | returns the signed big-endian long at the cursor or EOF, and moves as `f.read(4)` does |
| Stream.Reader.ReadShorts | psbrushtipextract.py:51-53 | the loop over scanline lengths computes `ReadShortsAt` |
| Stream.Reader.ReadUcs2Text | psbrushtipextract.py:36-48 | computes `ReadUcs2TextAt` through the cursor |
| Stream.Reader.Seek | psbrushtipextract.py:229 | an absolute seek moves the cursor to a non-negative target and raises otherwise, leaving the cursor |
| Stream.Reader.SeekRelative | psbrushtipextract.py:101 | `f.seek(n, 1)` moves by n when the result is non-negative and raises otherwise |
| PackBits.Signed | psbrushtipextract.py:64-65 | the control byte read as signed lies in [-128, 128) and agrees with the byte mod 256 |
| PackBits.Fit | psbrushtipextract.py:55 | the output buffer has exactly height*width bytes: the bytes produced, cut off or zero-filled |
| PackBits.FitAppend | psbrushtipextract.py:76-78 | writing one more byte sets the next buffer cell while there is room and changes nothing once the buffer is full |
| PackBits.RleDecodeAt | psbrushtipextract.py:50-87 | short scanline lengths raise EOF; then `bytearray(height*width)` raises for a negative size and for a size of 2^63 or more; a successful decode yields exactly height*width bytes |
| PackBits.NoOpPacket | psbrushtipextract.py:67-69 | a -128 control byte produces nothing and uses one byte |
| PackBits.RepeatPacket | psbrushtipextract.py:71-78 | a control byte n in (-128, 0) repeats the next byte 1-n times and uses two bytes |
| PackBits.LiteralPacket | psbrushtipextract.py:79-85 | a control byte n >= 0 copies the next n+1 bytes and uses n+2 bytes |
| PackBits.TruncatedPacket | psbrushtipextract.py:61-85 | a packet whose bytes run past the end raises EOF |
| PackBits.RowStep | psbrushtipextract.py:60-85 | a row is its first packet followed by the rest of the row, decoded with the declared length minus the bytes used |
| PackBits.RowsStep | psbrushtipextract.py:58-85 | the rows are the first row followed by the others, each starting where the previous one ended |
| PackBits.RowUnfold | psbrushtipextract.py:60-85 | while a row's budget is positive, a failing packet fails the row; otherwise the packet's bytes are prepended to the rest of the row |
| PackBits.RowsUnfold | psbrushtipextract.py:58-85 | a failing first row fails the whole decode; otherwise its bytes are prepended to the remaining rows |
| PackBits.NoOpRow | psbrushtipextract.py:60-69 | a row of only -128 control bytes decodes to nothing and uses its declared length |
| PackBits.NoOpRows | psbrushtipextract.py:58-69 | rows of only -128 bytes decode to nothing, so the plane stays zero |
| PackBits.PacketRoundTrip | psbrushtipextract.py:61-85 | any well-formed packet (a run of 2 to 128 copies, a literal of 1 to 128 bytes, or the -128 no-op) decodes to the bytes it stands for and ends where its encoding ends |
| PackBits.DecodeEncodedRow | psbrushtipextract.py:60-85 | any list of well-formed packets, long runs and literals included, with its encoded length as the row budget, decodes to the bytes the packets stand for and ends where the encoding ends |
| PackBits.Pack | psbrushtipextract.py:60-85 | the encoder emits only well-formed packets: runs of 2 to 128 copies and one-byte literals |
| PackBits.PackExpands | psbrushtipextract.py:60-85 | the packets `Pack` emits stand for exactly the row, and their encoding is at most twice as long as the row |
| PackBits.DecodePackedRow | psbrushtipextract.py:60-85 | decoding the `Pack` encoding of any row, with its encoded length as the budget, gives the row back and ends right after the encoding |
| PackBits.DecodeEncodedRows | psbrushtipextract.py:58-85 | rows of well-formed packets, each decoded with its own encoded length, give the rows' bytes one after another and end where the last row ends |
| PackBits.ExpandRowsLength | psbrushtipextract.py:55-85 | rows that each stand for `width` bytes stand for height*width bytes together, so the buffer is filled exactly |
| PackBits.ReadLengthHeader | psbrushtipextract.py:51-53 | a header written from lengths in [0, 0x8000) reads back as those lengths and takes 2 bytes per row |
| PackBits.PlaneStep | psbrushtipextract.py:50-87 | the decoder's output is the rows it decoded, fitted to height*width |
| PackBits.DecodePackedPlane | psbrushtipextract.py:50-87 | any width x height image (width below 0x4000), encoded row by row with `Pack` behind the header of its encoded lengths, decodes in one call to the image, ending right after the last row |
| PackBits.DecodeEncodedPlane | psbrushtipextract.py:50-87 | height rows of well-formed packets, each standing for `width` bytes and encoded in fewer than 0x8000 bytes, behind their length header, decode to the rows' bytes with nothing cut off or zero-filled |
| PackBits.PackAllExpands | psbrushtipextract.py:58-85 | packing every row gives well-formed rows that stand for the rows one after another |
| PackBits.DecodePackAll | psbrushtipextract.py:50-87 | a plane of `Pack`ed rows of `width` bytes, behind their header, decodes to what the packed rows stand for |
| PackBits.Put | psbrushtipextract.py:76-78 | one byte is written into the buffer while there is room; the buffer holds what has been produced so far |
| PackBits.PutRun | psbrushtipextract.py:75-78 | a repeat run writes `count` copies, clamped to the buffer |
| PackBits.CopyLiteral | psbrushtipextract.py:80-85 | a literal copies exactly the next `count` bytes from the file into the buffer, or raises EOF when they are not there |
| PackBits.PacketInto | psbrushtipextract.py:61-85 | one pass of the inner loop writes the bytes of `PacketAt` and reports how many file bytes it used |
| PackBits.DecodeRowInto | psbrushtipextract.py:59-85 | the `while j < scanline_lengths[i]` loop writes `DecodeRow` into the buffer and fails exactly when it does |
| PackBits.RleDecode | psbrushtipextract.py:50-87 | the decoder working in place on a `bytearray` returns `RleDecodeAt` and leaves the cursor where it says |
| AbrSpec.Digits | psbrushtipextract.py:148 | the decimal rendering is a non-empty string of digits |
| AbrSpec.DigitsRoundTrip | psbrushtipextract.py:148 | the decimal rendering of n reads back as n |
| AbrSpec.DefaultName | psbrushtipextract.py:148 | `brush_{i:03d}` starts with `brush_` and has at least 3 digits |
| AbrSpec.DefaultNameIndex | psbrushtipextract.py:148 | the digits of a default name read back as the brush index, zero padding included |
| AbrSpec.RoundUp4 | psbrushtipextract.py:204-205 | the record length is rounded up to the next multiple of 4, by less than 4 |
| AbrSpec.BoundsAt | psbrushtipextract.py:215-219 | bounds and depth are read exactly when 18 bytes remain, as four signed longs and a signed short |
| AbrSpec.HeaderAt | psbrushtipextract.py:215-220 | a record header needs 19 bytes: the bounds, then the compression byte |
| AbrSpec.PayloadAt | psbrushtipextract.py:232-240 | uncompressed data raises ValueError when width*height*(depth//8) is below -1 and OverflowError when it is 2^63 or more; otherwise it is kept exactly when that many bytes are there, and is those bytes; compressed data succeeds exactly when the decoder does and is its height*width bytes |
| AbrSpec.V12RecordAt | psbrushtipextract.py:94-159 | a brush slot yields a brush only for type 2, with index i+1, height at most 16384 and width*height*(depth//8) raw or width*height decoded data bytes |
| AbrSpec.V12SampledAt | psbrushtipextract.py:104-155 | a sampled brush has index i+1, height at most 16384 and a matching data length; in version 2 its name is the UCS-2 text read after the spacing, or `brush_{i+1:03d}` when that text is empty; in version 1 it is always `brush_{i+1:03d}` |
| AbrSpec.NameAt | psbrushtipextract.py:105-148 | the name is never empty; outside version 2 it is `brush_{i+1:03d}` and reads no bytes |
| AbrSpec.V12SampledSteps | psbrushtipextract.py:104-155 | a sampled record raises exactly when misc, spacing, name, antialiasing, the four shorts and the bounds do not all fit; otherwise a brush taller than 16384 is dropped where its bounds end, and any other goes on to its compression byte and pixels with the name, spacing and bounds read |
| AbrSpec.V12PixelsAt | psbrushtipextract.py:135-155 | it succeeds exactly when the compression byte is there and `PayloadAt` succeeds after it, ends where the payload ends, and yields a brush exactly when the payload is all the pixels; that brush carries the index, name, spacing, width, height and depth read, and its data are exactly the pixels `PayloadAt` read, as many as the compression byte calls for |
| AbrSpec.V12SkipsOtherKinds | psbrushtipextract.py:99-159 | a slot whose type is not 2 is skipped by its declared size; a negative target raises |
| AbrSpec.V12TallBrush | psbrushtipextract.py:104-133 | in version 1 or 2, a sampled brush taller than 16384 appends nothing and the next slot starts right after its bounds and depth, past the name's bytes in version 2 |
| AbrSpec.V1TallBrush | psbrushtipextract.py:104-133 | in version 1 that next slot starts 39 bytes into the record, whatever size it declared |
| AbrSpec.V12Brushes | psbrushtipextract.py:92-165 | the v1/v2 loop yields brushes with indices in (i, count], strictly increasing, each at most 16384 tall with width*height*(depth//8) or width*height data bytes |
| AbrSpec.SectionFound | psbrushtipextract.py:167-185 | when the search succeeds, the 8 bytes before the cursor are `8BIM` and the section name |
| AbrSpec.NoSection | psbrushtipextract.py:170-172 | without `8BIM` at the cursor the search returns False |
| AbrSpec.Skip | psbrushtipextract.py:229-230 | a skipped record appends nothing, does not count, and goes on at `next_brush` when the seek can be made |
| AbrSpec.V6RecordAt | psbrushtipextract.py:198-258 | a v6 record goes on at pos+4 plus its size rounded up to 4, and stops the loop when its size cannot be read; a brush it yields is counted, named `brush_{index:03d}`, has spacing 25, positive width and height, and width*height*(depth//8) or width*height data bytes |
| AbrSpec.V6RecordBody | psbrushtipextract.py:200-213 | a v6 record reads its header 47 bytes past the size field in subversion 1 and 301 bytes past it otherwise, with `next_brush` from the rounded size |
| AbrSpec.V6Body | psbrushtipextract.py:215-254 | a v6 record yields a brush exactly when its header reads, its width and height are positive and all its pixels are there, and that brush is `brush_{index:03d}` with the header's size and depth and exactly the pixels `PayloadAt` read; it counts exactly when it yields a brush; it goes on at `next_brush` exactly when that seek is possible, the header reads, and the size is not positive or the pixel read did not raise |
| AbrSpec.V6RefusedRead | psbrushtipextract.py:232-258 | an uncompressed v6 brush whose byte count `read` refuses (below -1, or 2^63 and more) raises out of the loop: nothing is appended and the loop stops |
| AbrSpec.ProbeFirst | psbrushtipextract.py:292-310 | the probe answers the first 4-aligned offset below min(500, size) whose bounds are plausible, and none when there is none |
| AbrSpec.V10Body | psbrushtipextract.py:317-365 | a v10 record goes on at `next_brush` exactly when that seek is possible; it counts exactly when its header reads with a positive size and the pixel read raised or gave all the pixels; it yields a brush exactly when all the pixels are there, and that brush is `brush_{index:03d}` with the header's size and depth and exactly the pixels `PayloadAt` read |
| AbrSpec.V10RefusedRead | psbrushtipextract.py:339-364 | an uncompressed v10 brush whose byte count `read` refuses is caught inside the loop: nothing is appended, the index still moves on and the loop seeks to `next_brush` |
| AbrSpec.V10RecordAt | psbrushtipextract.py:274-369 | a v10 record goes on at pos+4 plus its size rounded up to 4, and stops the loop when its size cannot be read; a brush it yields is counted and well formed |
| AbrSpec.V10ProbeMiss | psbrushtipextract.py:311-315 | when the probe finds no plausible bounds, the record appends nothing, is not counted and goes on at `next_brush` |
| AbrSpec.V10RecordBody | psbrushtipextract.py:284-316 | once the header position is known, a v10 record is that header's body with `next_brush` from the rounded size |
| AbrSpec.V10ReadsPastProbe | psbrushtipextract.py:292-322 | with a probed offset, the header is read 18 bytes past it |
| AbrSpec.RecordsFrom | psbrushtipextract.py:198-258 | the record loop never raises: it returns the brushes so far or runs forever |
| AbrSpec.RecordsStep | psbrushtipextract.py:198-258 | one pass of the loop: stop after the brush when the pass fails, otherwise prepend its brush and go on with the next index when it counted |
| AbrSpec.RecordsKept | psbrushtipextract.py:197-260 | the brushes of a v6/v10 section have strictly increasing indices from 1 on, each named and sized as a kept brush |
| AbrSpec.SelfLoop | psbrushtipextract.py:198-207 | a record whose `next_brush` is its own start makes the loop run forever |
| AbrSpec.NoSampleSection | psbrushtipextract.py:266-268 | a v10 file without `8BIM` after the header extracts successfully with no brushes |
| AbrSpec.ExtractAt | psbrushtipextract.py:373-400 | versions 1 and 2 load the brush list; version 6 with subversion 1 or 2 and version 10 load the `samp` section; any other version, or v6 subversion, gives False, and so does a file shorter than its header |
| BrushTipExtract.AlignUp | psbrushtipextract.py:204-205 | the `while brush_end % 4 != 0` loop computes the rounding up to 4 |
| BrushTipExtract.ReadBounds | psbrushtipextract.py:295-299 | the five reads compute `BoundsAt` through the cursor |
| BrushTipExtract.ReadHeader | psbrushtipextract.py:318-323 | the six reads compute `HeaderAt` |
| BrushTipExtract.ReadPayload | psbrushtipextract.py:339-348 | the raw read or the decoder computes `PayloadAt`, passing on the error a refused read size raises |
| BrushTipExtract.V12Record | psbrushtipextract.py:94-159 | one slot of `load_abr_v12` computes `V12RecordAt` and leaves the cursor there |
| BrushTipExtract.V12Sampled | psbrushtipextract.py:104-155 | the type-2 branch computes `V12SampledAt` |
| BrushTipExtract.V12Pixels | psbrushtipextract.py:135-155 | the compression byte and payload reads compute `V12PixelsAt` |
| BrushTipExtract.SkipTo | psbrushtipextract.py:229-230 | `f.seek(next_brush); continue` gives `Skip` and puts the cursor on `next_brush` |
| BrushTipExtract.V6Record | psbrushtipextract.py:200-254 | one pass of the v6 loop computes `V6RecordAt` and leaves the cursor at the next record |
| BrushTipExtract.V6Rest | psbrushtipextract.py:215-254 | the v6 record after the fixed skip computes `V6Body` |
| BrushTipExtract.ProbeOffsets | psbrushtipextract.py:289-315 | the probe loop computes `Probe` and, when it finds an offset, leaves the cursor 18 bytes past it |
| BrushTipExtract.V10Record | psbrushtipextract.py:276-365 | one pass of the v10 loop computes `V10RecordAt` |
| BrushTipExtract.V10Rest | psbrushtipextract.py:317-365 | the v10 record from its header on computes `V10Body` |
| BrushTipExtract.Record | psbrushtipextract.py:198-258 | one pass of the v6 or v10 loop computes `RecordAt` |
| BrushTipExtract.RecordLoop | psbrushtipextract.py:197-258 | the `while f.tell() < sample_section_end` loop computes `RecordsFrom`, reporting `Diverges` where Python would loop forever |
| BrushTipExtract.AbrExtractor.constructor | psbrushtipextract.py:14-16 | a new extractor holds no brushes |
| BrushTipExtract.AbrExtractor.LoadAbrV12 | psbrushtipextract.py:89-165 | the v1/v2 loader computes `LoadV12` |
| BrushTipExtract.AbrExtractor.Reach8bimSection | psbrushtipextract.py:167-185 | the section search computes `ReachSection` and leaves the cursor after the section name on success |
| BrushTipExtract.AbrExtractor.LoadSampledSection | psbrushtipextract.py:190-260 | finding `samp`, reading its size and looping over its records computes `LoadSampled` |
| BrushTipExtract.AbrExtractor.LoadAbrV6 | psbrushtipextract.py:187-260 | `load_abr_v6` computes `LoadSampled` for version 6 |
| BrushTipExtract.AbrExtractor.LoadAbrV10 | psbrushtipextract.py:262-371 | `load_abr_v10` computes `LoadSampled` for version 10 |
| BrushTipExtract.AbrExtractor.ExtractBrushes | psbrushtipextract.py:373-400 | returns True exactly when `ExtractAt` gives brushes, and then sets `brushes` to them; otherwise `brushes` is unchanged |
| BrushTipExtract.AbrExtractor.SaveBrushImages | psbrushtipextract.py:413-442 | prepares one image per brush, in order, each as `TileOf` says |
| BrushImages.Rgb | psbrushtipextract.py:433-434 | the RGB plane has 3 bytes per pixel |
| BrushImages.Alpha | psbrushtipextract.py:433-435 | the alpha plane has 1 byte per pixel |
| BrushImages.PlanesAt | psbrushtipextract.py:433-435 | channel c of pixel k in the RGB plane is byte 4k+c, and alpha k is byte 4k+3 |
| BrushImages.InterleaveSplit | psbrushtipextract.py:431-439 | re-interleaving the RGB and alpha planes gives back the RGBA data |
| BrushImages.SplitInterleave | psbrushtipextract.py:431-439 | splitting interleaved planes gives back both planes |
| BrushImages.Deinterleave | psbrushtipextract.py:431-435 | the `for i in range(0, len(data), 4)` loop builds exactly the RGB and alpha planes |
| BrushImages.TileOf | psbrushtipextract.py:420-442 | grayscale exactly for depth 8 with width*height bytes, RGBA exactly for depth 32 with 4*width*height bytes, unsupported exactly for other depths; the planes re-interleave to the data |
| BrushImages.PrepareImage | psbrushtipextract.py:420-442 | the per-brush branch computes `TileOf` |
| DescriptorCommon.Tag | PSBrushExtract.py:18-27 | every marker is 4 bytes |
| DescriptorCommon.NameIsTag | PSBrushExtract.py:18-27 | each marker's type name is its bytes read as text |
| DescriptorCommon.TagsDistinct | PSBrushExtract.py:18-27 | the eight markers are pairwise different, so the dictionary's order never decides a match |
| DescriptorCommon.MarkerAt | PSBrushExtract.py:45-46 | a marker matches at pos exactly when its 4 bytes are there; none matches otherwise |
| DescriptorCommon.MarkerUnique | PSBrushExtract.py:45-46 | the marker found at pos is the one whose bytes are there |
| DescriptorCommon.MatchMarker | PSBrushExtract.py:45-46 | the loop over the marker dictionary finds `MarkerAt` |
| DescriptorCommon.FindFrom | PSBrushExtract.py:14 | `find` answers an occurrence at or after `from`, and no earlier one exists |
| DescriptorCommon.FirstMarkerFrom | PSBrushExtract.py:161-165 | the nearest marker from `from` is a marker position (or the end), with no marker in between |
| DescriptorCommon.NearestAmongBounds | PSBrushExtract.py:161-165 | the min over the markers' `find` results is a marker position no later than any of them |
| DescriptorCommon.NearestIsFirst | PSBrushExtract.py:161-165 | the min over all eight `find`s is the first marker position |
| DescriptorCommon.FirstMarkerUnique | PSBrushExtract.py:161-165 | any marker position with no marker before it is the nearest marker |
| DescriptorCommon.NearestMarker | PSBrushExtract.py:161-165 | the `for next_marker` loop with `min` computes the first marker position |
| DescriptorCommon.NoMarkerBefore | PSBrushExtract.py:161-165 | a position no later than every `find` result has no marker before it |
| DescriptorCommon.Chars | PSBrushExtract.py:36 | `chr` of each byte keeps the length and the code of every byte |
| DescriptorCommon.RunStart | PSBrushExtract.py:34-38 | the backward loop stops just after the last non-printable byte, and every byte it collected is printable |
| DescriptorCommon.RunStartUnique | PSBrushExtract.py:34-38 | any start of a printable run reaching the end, preceded by a non-printable byte or the segment start, is the loop's stop |
| DescriptorCommon.StripStart | PSBrushExtract.py:40 | leading whitespace is removed and nothing else |
| DescriptorCommon.StripEnd | PSBrushExtract.py:40 | trailing whitespace is removed and nothing else |
| DescriptorCommon.Strip | PSBrushExtract.py:40 | `strip()` leaves no whitespace at either end, and the result is the middle slice of the text with only whitespace removed before and after it |
| DescriptorCommon.KeyShape | PSBrushExtract.py:29-40 | a key is at most 50 printable ASCII characters with no whitespace at either end |
| DescriptorCommon.FindPrintableKeyBefore | PSBrushExtract.py:29-40 | the helper computes `KeyBefore`: the trailing printable run of the 50 bytes before the marker, stripped |
| DescriptorCommon.CollectRun | PSBrushExtract.py:34-38 | the backward loop with its `break` collects exactly the trailing printable run of the segment |
| DescriptorCommon.AsciiIgnore | PSBrushExtract.py:65 | `decode('ascii', errors='ignore')` keeps only characters below 128 and never lengthens |
| DescriptorCommon.AsciiIgnoreSnoc | PSBrushExtract.py:65 | decoding one more byte appends its character exactly when it is below 128, and nothing otherwise |
| DescriptorCommon.AsciiIgnoreAscii | PSBrushExtract.py:65 | bytes all below 128 decode to themselves, one character per byte |
| DescriptorCommon.StripTrimmed | PSBrushExtract.py:99 | `rstrip('\x00')` leaves a prefix of the text with no trailing NUL, and removes only NULs |
| DescriptorCommon.TrimmedEmpty | PSBrushExtract.py:99-100 | the trimmed text is empty exactly when the text was all NULs |
| DescriptorCommon.HexString | PSBrushExtract.py:166 | `.hex()` gives two hex digits per byte |
| DescriptorCommon.HexRoundTrip | PSBrushExtract.py:166 | reading the hex dump back gives the bytes dumped |
| DescriptorCommon.SkippedText | PSBrushExtract.py:166-167 | `skipped (0x…)` is 12 characters plus two per byte, and its hex part reads back as the dumped bytes |
| DescriptorCommon.LabelText | PSBrushExtract.py:68 | every type name, `UntF#code` included, starts with the marker's name |
| DescriptorCommon.TextAt | PSBrushExtract.py:49-61 | a `TEXT` record ends after 2*count bytes, cut off at the end of the data, and yields a `TEXT` entry with the key |
| DescriptorCommon.FixedAt | PSBrushExtract.py:49-95 | a fixed record is read exactly when its width (18, 8, 5, 12, or 8 for the `TEXT` header) fits and advances by it (`TEXT` by its text, as `TextAt`); `UntF` yields the stripped ASCII unit code and the 8 bytes at +8, `long` the signed long at +4, `bool` whether the byte at +4 is non-zero, `doub` the 8 bytes at +4 |
| DescriptorCommon.DumpAt | PSBrushExtract.py:160-170 | a dump runs from the marker to the next marker after it (or the end), with no marker in between, and its entry holds exactly those bytes |
| DescriptorCommon.DumpRecord | PSBrushExtract.py:160-170 | the `VlLs` branch computes `DumpAt` |
| DescriptorScan.PadEnd | PSBrushExtract.py:104-105 | the padding loop skips exactly the 0x00 and 0x20 bytes and stops at the first other byte or the end |
| DescriptorScan.PrintableEnd | PSBrushExtract.py:108-112 | the value loop covers exactly the printable run |
| DescriptorScan.KeepEnumChars | PSBrushExtract.py:110-111 | the filter keeps exactly the alphanumeric, space, `.`, `-` and `_` characters |
| DescriptorScan.KeepAppend | PSBrushExtract.py:110-111 | filtering one more character appends it exactly when it is allowed |
| DescriptorScan.EnumType | PSBrushExtract.py:99-101 | the type is the ASCII text of the 4 bytes at +8 with its trailing NULs removed, or, when that text is all NULs, the same of the 4 bytes at +4 |
| DescriptorScan.EnumTypeAscii | PSBrushExtract.py:99-101 | four ASCII bytes at +8, none of them NUL, are the type as they stand |
| DescriptorScan.EnumValue | PSBrushExtract.py:107-114 | the value has only allowed characters and no whitespace at either end, and is the allowed characters of the printable run after the padding, stripped |
| DescriptorScan.KeepAllowed | PSBrushExtract.py:110-111 | text of only allowed characters passes the filter unchanged |
| DescriptorScan.EnumValueClean | PSBrushExtract.py:103-114 | a printable run of allowed characters that neither starts nor ends with a space is the value as it stands |
| DescriptorScan.EnumAt | PSBrushExtract.py:97-127 | an `enum` record yields the entry `type.value`, or `type` when the value is empty, and resumes at the first marker at or after the end of the value's printable run: no earlier than that end, on a marker (or the end of the data), with none in between |
| DescriptorScan.SkipPadding | PSBrushExtract.py:104-105 | the loop computes `PadEnd` |
| DescriptorScan.CollectValue | PSBrushExtract.py:107-112 | the loop stops at `PrintableEnd` having kept exactly the allowed characters of the run |
| DescriptorScan.EnumRecord | PSBrushExtract.py:97-127 | the `enum` branch computes `EnumAt` |
| DescriptorScan.WordEnd | PSBrushExtract.py:136-143 | the name loop covers exactly the run of letters, digits and `_` |
| DescriptorScan.ClassFrom | PSBrushExtract.py:132-152 | the search finds the first position before L-10 where a lowercase letter starts a name longer than 3, and no earlier one |
| DescriptorScan.ClassName | PSBrushExtract.py:134-143 | the name is the word run, letters, digits and `_` only |
| DescriptorScan.ObjcAt | PSBrushExtract.py:129-158 | an `Objc` record yields `no_class_found` after 4 bytes exactly when no class name starts before L-10; otherwise the name starts where `ClassFrom` finds the first class start, is longer than 3 and starts lowercase, and is exactly the word run from there: the new position is `WordEnd` of the name's start |
| DescriptorScan.ReadWord | PSBrushExtract.py:134-143 | the inner loop computes the word end and the name |
| DescriptorScan.ObjcRecord | PSBrushExtract.py:129-158 | the `Objc` branch computes `ObjcAt` |
| DescriptorScan.RecordAt | PSBrushExtract.py:45-173 | a record moves the scan forward, and its entry carries the key and the marker's type; a fixed record or `enum` (12 bytes) that does not fit is exactly the case with no entry, and then the scan moves one byte on |
| DescriptorScan.StepAt | PSBrushExtract.py:42-173 | one pass of the scan loop moves forward; an entry comes only from a marker and carries the key found before it |
| DescriptorScan.Step | PSBrushExtract.py:43-173 | the loop body computes `StepAt` |
| DescriptorScan.Record | PSBrushExtract.py:45-170 | the branch on the marker computes `RecordAt` |
| DescriptorScan.ParseBrushParameters | PSBrushExtract.py:8-175 | the whole function returns `Parse` |
| DescriptorScan.ScanAppend | PSBrushExtract.py:42-173 | results are only appended, in scan order |
| DescriptorScan.NoObjcNoResults | PSBrushExtract.py:14-16 | without `Objc` the result is empty |
| DescriptorScan.FirstResultIsObjc | PSBrushExtract.py:14-158 | when `Objc` occurs before L-4, the first result is an `Objc` entry |
| DescriptorScan.ObjcStep | PSBrushExtract.py:129-158 | an `Objc` marker always yields an `Objc` entry |
| DescriptorScan.ScanHead | PSBrushExtract.py:42-173 | the entry of a pass is the first result from that position |
| DescriptorScan.ScanLength | PSBrushExtract.py:42-173 | the scan from pos yields at most one result per remaining byte |
| DescriptorScan.UnmatchedRun | PSBrushExtract.py:172-173 | a run of positions with no marker adds nothing to the results |
| DescriptorScan.EntriesWellFormed | PSBrushExtract.py:29-47 | every result's key is at most 50 printable characters with no whitespace at either end |
| DescriptorScanDev.EnumCode | psbrushextract_dev.py:100 | the enum code is the ASCII text of the 4 bytes at +4 with its trailing NULs removed |
| DescriptorScanDev.EnumAt | psbrushextract_dev.py:98-111 | a development `enum` record always advances 8 bytes and dumps exactly the 4 code bytes |
| DescriptorScanDev.EnumDumpEnd | psbrushextract_dev.py:102-106 | the lookahead loop leaves `next_pos` at pos+8 |
| DescriptorScanDev.EnumRecord | psbrushextract_dev.py:98-111 | the `enum` branch computes `EnumAt` |
| DescriptorScanDev.DelimitedEnumAt | psbrushextract_dev.py:101-107 | the dump that reaches the next marker after pos+8, as the comment describes, with no marker inside it |
| DescriptorScanDev.EnumResumesAtMarker | psbrushextract_dev.py:98-111 | resuming at pos+8 or at the next marker gives the same later results |
| DescriptorScanDev.SmallByteNoMarker | psbrushextract_dev.py:46-47 | no marker starts at a byte below `O` |
| DescriptorScanDev.EnumDumpStopsShort | psbrushextract_dev.py:102-109 | on `enumabcd` followed by four more bytes with no marker, the dump holds 4 bytes where the delimited dump holds 8 |
| DescriptorScanDev.RecordAt | psbrushextract_dev.py:46-140 | a record moves the scan forward, and its entry carries the key and the marker's type; a fixed record or `enum` (8 bytes) that does not fit is exactly the case with no entry, and then the scan moves one byte on |
| DescriptorScanDev.StepAt | psbrushextract_dev.py:43-140 | one pass of the scan loop moves forward; an entry comes only from a marker and carries the key found before it |
| DescriptorScanDev.Step | psbrushextract_dev.py:44-140 | the loop body computes `StepAt` |
| DescriptorScanDev.Record | psbrushextract_dev.py:46-137 | the branch on the marker computes `RecordAt` |
| DescriptorScanDev.ParseBrushParameters | psbrushextract_dev.py:8-142 | the whole function returns `Parse` |
| DescriptorScanDev.ScanAppend | psbrushextract_dev.py:43-140 | results are only appended, in scan order |
| DescriptorScanDev.SameAsReleased | psbrushextract_dev.py:50-96 | `TEXT`, `UntF`, `long`, `bool`, `doub` and `VlLs` records are read exactly as the released scanner reads them |
| DescriptorScanDev.ObjcDump | psbrushextract_dev.py:113-124 | an `Objc` record dumps the bytes from its marker to the next marker, with none in between |
| DescriptorScanDev.UnmatchedRun | psbrushextract_dev.py:139-140 | a run of positions with no marker adds nothing to the results |

## Left out

- File I/O is not modelled. Opening the file becomes the byte string the
  `Reader` is built on. Output directories, file names, `Image.frombytes`,
  `Image.merge` and `img.save` are left out, so `SaveBrushImages` returns
  what it would hand to PIL.
- Diagnostic `print` calls, `main`, the command line and `format_results` are
  output only and are left out.
- DescriptorCommon.FixedAt: `doub` and the double in `UntF` are kept as their
  8 raw big-endian bytes. Floating point is not modelled.
- DescriptorCommon.TextAt: a `TEXT` payload that is not valid UTF-16BE keeps
  its raw bytes (`Undecoded`). The lossy UTF-8 fallback decoder is not
  modelled.
- DescriptorCommon.Rendered: the scanners' formatted strings (`skipped
  (0x…)`, the development `enum` text and `no_class_found`) are carried as
  their parts. `Rendered` builds the text, and `SkippedText` states its
  shape.
- BrushTipExtract.RecordLoop: where Python loops forever, the model stops and
  reports `Diverges`. This is the record loop when a record leads back to a
  position already visited. The section search, with its cursor position,
  behaves the same way.
- PackBits.RleDecodeAt and AbrSpec.PayloadAt: a `bytearray` or `read` size
  of 2^63 or more raises OverflowError, and a negative one is refused; both
  are modelled. A MemoryError for a size that fits but cannot be allocated
  depends on the machine and is not modelled: such a size decodes normally.
- AbrSpec.Sized: the brush list does not record the compression byte each
  brush was read with, so at the list level a brush is only known to hold
  one of the two sizes. Each record states the size its own compression
  byte calls for (`SizedFor` in `V12PixelsAt`, `V6Body` and `V10Body`).
- Stream.Reader.ReadShorts, Stream.Reader.ReadUcs2Text and the other cursor
  reads: after an exception inside a composite read, the cursor position is
  left unspecified. Every caller that catches the
  exception either seeks absolutely afterwards or leaves the loop.
- The brush loaders throw away the misc flags, antialiasing byte and
  short-form bounds they read. Only the bytes these fields take up are
  modelled.
