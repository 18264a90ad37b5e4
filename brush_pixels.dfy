/**
 * The part of `save_brush_images` that works on bytes: the size check that
 * decides whether a brush can become an image, and the loop that splits
 * 32-bit brush data into its colour and alpha planes. The image library
 * calls that build and save the picture are not modelled; what this module
 * yields is the plane(s) that would be handed to it.
 */
module BrushImages {
  import opened BigEndian
  import opened AbrSpec

  /** The colour bytes of RGBA pixels: the first three bytes of every four. */
  function Rgb(data: seq<byte>): (rgb: seq<byte>)
    requires |data| % 4 == 0
    ensures |rgb| == 3 * (|data| / 4)
    decreases |data|
  {
    if data == [] then [] else data[..3] + Rgb(data[4..])
  }

  /** The alpha bytes of RGBA pixels: the fourth byte of every four. */
  function Alpha(data: seq<byte>): (alpha: seq<byte>)
    requires |data| % 4 == 0
    ensures |alpha| == |data| / 4
    decreases |data|
  {
    if data == [] then [] else [data[3]] + Alpha(data[4..])
  }

  /** Pixel `k`'s colour bytes are bytes `4k`, `4k + 1`, `4k + 2` of the data, and its alpha is byte `4k + 3`. */
  lemma {:induction false} PlanesAt(data: seq<byte>, k: nat, c: nat)
    requires |data| % 4 == 0 && k < |data| / 4 && c < 3
    ensures Rgb(data)[3 * k + c] == data[4 * k + c]
    ensures Alpha(data)[k] == data[4 * k + 3]
    decreases k
  {
    if k > 0 {
      PlanesAt(data[4..], k - 1, c);
      assert Rgb(data)[3 * k + c] == Rgb(data[4..])[3 * (k - 1) + c];
      assert Alpha(data)[k] == Alpha(data[4..])[k - 1];
    }
  }

  /** Colour and alpha planes put back together, pixel by pixel. */
  function Interleave(rgb: seq<byte>, alpha: seq<byte>): (data: seq<byte>)
    requires |rgb| == 3 * |alpha|
    ensures |data| == 4 * |alpha|
    decreases |alpha|
  {
    if alpha == [] then [] else rgb[..3] + [alpha[0]] + Interleave(rgb[3..], alpha[1..])
  }

  /** Splitting RGBA data into planes and interleaving them again gives the data back. */
  lemma {:induction false} InterleaveSplit(data: seq<byte>)
    requires |data| % 4 == 0
    ensures Interleave(Rgb(data), Alpha(data)) == data
    decreases |data|
  {
    if data != [] {
      InterleaveSplit(data[4..]);
      assert Rgb(data)[..3] == data[..3];
      assert Rgb(data)[3..] == Rgb(data[4..]);
      assert Alpha(data)[1..] == Alpha(data[4..]);
      assert data == data[..3] + [data[3]] + data[4..];
    }
  }

  /** Interleaved planes split back into the same planes. */
  lemma {:induction false} SplitInterleave(rgb: seq<byte>, alpha: seq<byte>)
    requires |rgb| == 3 * |alpha|
    ensures Rgb(Interleave(rgb, alpha)) == rgb && Alpha(Interleave(rgb, alpha)) == alpha
    decreases |alpha|
  {
    if alpha != [] {
      SplitInterleave(rgb[3..], alpha[1..]);
      var data := Interleave(rgb, alpha);
      assert data[..3] == rgb[..3] && data[3] == alpha[0];
      assert data[4..] == Interleave(rgb[3..], alpha[1..]);
      assert rgb == rgb[..3] + rgb[3..];
      assert alpha == [alpha[0]] + alpha[1..];
    }
  }

  /** The planes of the data from byte `i` on start with pixel `i / 4`. */
  lemma PlanesStep(data: seq<byte>, i: nat)
    requires |data| % 4 == 0 && i % 4 == 0 && i < |data|
    ensures Rgb(data[i..]) == [data[i], data[i + 1], data[i + 2]] + Rgb(data[i + 4..])
    ensures Alpha(data[i..]) == [data[i + 3]] + Alpha(data[i + 4..])
  {
    assert data[i..][4..] == data[i + 4..];
    assert data[i..][..3] == [data[i], data[i + 1], data[i + 2]];
  }

  /**
   * The `for i in range(0, len(data), 4)` loop: three colour bytes to
   * `pixels`, the fourth to `alpha`, for every pixel in order.
   */
  method Deinterleave(data: seq<byte>) returns (pixels: seq<byte>, alpha: seq<byte>)
    requires |data| % 4 == 0
    ensures pixels == Rgb(data) && alpha == Alpha(data)
  {
    hide Rgb, Alpha;
    pixels, alpha := [], [];
    var i := 0;
    while i < |data|
      invariant 0 <= i <= |data| && i % 4 == 0
      invariant Rgb(data) == pixels + Rgb(data[i..]) && Alpha(data) == alpha + Alpha(data[i..])
    {
      PlanesStep(data, i);
      assert pixels + Rgb(data[i..]) == (pixels + [data[i], data[i + 1], data[i + 2]]) + Rgb(data[i + 4..]);
      assert alpha + Alpha(data[i..]) == (alpha + [data[i + 3]]) + Alpha(data[i + 4..]);
      pixels := pixels + [data[i], data[i + 1], data[i + 2]];
      alpha := alpha + [data[i + 3]];
      i := i + 4;
    }
    assert pixels + [] == pixels && alpha + [] == alpha;
  }

  /** Why a brush gets no image. */
  datatype Reason = SizeMismatch | UnsupportedDepth

  /** What the image step makes of one brush: a greyscale plane, colour and alpha planes, or nothing. */
  datatype Tile =
    | Gray(width: int, height: int, pixels: seq<byte>)
    | Rgba(width: int, height: int, rgb: seq<byte>, alpha: seq<byte>)
    | Skipped(reason: Reason)

  /** The planes a brush yields: 8-bit data must hold `w * h` bytes, 32-bit data `w * h * 4`; other depths are skipped. */
  function TileOf(b: Brush): (t: Tile)
    ensures t.Gray? <==> b.depth == 8 && |b.data| == b.width * b.height
    ensures t.Rgba? <==> b.depth == 32 && |b.data| == b.width * b.height * 4
    ensures t.Skipped? && t.reason == UnsupportedDepth <==> b.depth != 8 && b.depth != 32
    ensures t.Gray? ==> t.pixels == b.data
    ensures t.Rgba? ==> (|t.rgb| == 3 * (b.width * b.height) && |t.alpha| == b.width * b.height &&
                         Interleave(t.rgb, t.alpha) == b.data)
  {
    if b.depth == 8 then
      if |b.data| != b.width * b.height then Skipped(SizeMismatch) else Gray(b.width, b.height, b.data)
    else if b.depth == 32 then
      if |b.data| != b.width * b.height * 4 then Skipped(SizeMismatch)
      else
        InterleaveSplit(b.data);
        Rgba(b.width, b.height, Rgb(b.data), Alpha(b.data))
    else Skipped(UnsupportedDepth)
  }

  /** The body of the `save_brush_images` loop for one brush, up to the image library call. */
  method PrepareImage(b: Brush) returns (t: Tile)
    ensures t == TileOf(b)
  {
    if b.depth == 8 {
      if |b.data| != b.width * b.height {
        return Skipped(SizeMismatch);
      }
      return Gray(b.width, b.height, b.data);
    } else if b.depth == 32 {
      if |b.data| != b.width * b.height * 4 {
        return Skipped(SizeMismatch);
      }
      var pixels, alpha := Deinterleave(b.data);
      return Rgba(b.width, b.height, pixels, alpha);
    }
    return Skipped(UnsupportedDepth);
  }
}
