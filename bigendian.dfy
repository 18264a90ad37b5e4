/**
 * Big-endian integers as the `struct` formats `>B`, `>h`, `>l`, `>i` and `>I` read
 * them: unsigned bytes, two's-complement 16- and 32-bit values, and unsigned
 * 32-bit values, with the encoders that invert them.
 */
module BigEndian {

  /** A byte as an element of Python's `bytes`: an integer in 0..255. */
  type byte = b: int | 0 <= b < 256

  const TWO16: int := 0x1_0000
  const TWO32: int := 0x1_0000_0000

  function U16(b: seq<byte>): (v: int)
    requires |b| == 2
    ensures 0 <= v < TWO16
  {
    (b[0] as int) * 0x100 + b[1]
  }

  /** `>h`: the high bit of the first byte is the sign. */
  function S16(b: seq<byte>): (v: int)
    requires |b| == 2
    ensures -0x8000 <= v < 0x8000
    ensures v < 0 <==> b[0] >= 0x80
    ensures v % TWO16 == U16(b)
  {
    var u := U16(b);
    if u >= 0x8000 then u - TWO16 else u
  }

  /** `>I` */
  function U32(b: seq<byte>): (v: int)
    requires |b| == 4
    ensures 0 <= v < TWO32
  {
    (b[0] as int) * 0x100_0000 + (b[1] as int) * 0x1_0000 + (b[2] as int) * 0x100 + b[3]
  }

  /** `>l` and `>i`: the high bit of the first byte is the sign. */
  function S32(b: seq<byte>): (v: int)
    requires |b| == 4
    ensures -0x8000_0000 <= v < 0x8000_0000
    ensures v < 0 <==> b[0] >= 0x80
    ensures v % TWO32 == U32(b)
  {
    var u := U32(b);
    if u >= 0x8000_0000 then u - TWO32 else u
  }

  function EncodeU16(v: int): (b: seq<byte>)
    requires 0 <= v < TWO16
    ensures |b| == 2
  {
    [v / 0x100, v % 0x100]
  }

  function EncodeS16(v: int): (b: seq<byte>)
    requires -0x8000 <= v < 0x8000
    ensures |b| == 2
  {
    EncodeU16(if v < 0 then v + TWO16 else v)
  }

  function EncodeU32(v: int): (b: seq<byte>)
    requires 0 <= v < TWO32
    ensures |b| == 4
  {
    [v / 0x100_0000, (v / 0x1_0000) % 0x100, (v / 0x100) % 0x100, v % 0x100]
  }

  function EncodeS32(v: int): (b: seq<byte>)
    requires -0x8000_0000 <= v < 0x8000_0000
    ensures |b| == 4
  {
    EncodeU32(if v < 0 then v + TWO32 else v)
  }

  lemma U16RoundTrip(v: int)
    requires 0 <= v < TWO16
    ensures U16(EncodeU16(v)) == v
  {
  }

  lemma S16RoundTrip(v: int)
    requires -0x8000 <= v < 0x8000
    ensures S16(EncodeS16(v)) == v
  {
    U16RoundTrip(if v < 0 then v + TWO16 else v);
  }

  lemma U16Inverse(b: seq<byte>)
    requires |b| == 2
    ensures EncodeU16(U16(b)) == b
  {
  }

  lemma S16Inverse(b: seq<byte>)
    requires |b| == 2
    ensures EncodeS16(S16(b)) == b
  {
  }

  lemma U32RoundTrip(v: int)
    requires 0 <= v < TWO32
    ensures U32(EncodeU32(v)) == v
  {
    var hi, lo := v / 0x1_0000, v % 0x1_0000;
    var h1, h0, l1, l0 := hi / 0x100, hi % 0x100, lo / 0x100, lo % 0x100;
    DivByConstant(v, 0x100_0000, h1, h0 * 0x1_0000 + l1 * 0x100 + l0);
    DivByConstant(v, 0x100, h1 * 0x1_0000 + h0 * 0x100 + l1, l0);
    DivByConstant(h1 * 0x1_0000 + h0 * 0x100 + l1, 0x100, h1 * 0x100 + h0, l1);
  }

  lemma S32RoundTrip(v: int)
    requires -0x8000_0000 <= v < 0x8000_0000
    ensures S32(EncodeS32(v)) == v
  {
    U32RoundTrip(if v < 0 then v + TWO32 else v);
  }

  lemma U32Inverse(b: seq<byte>)
    requires |b| == 4
    ensures EncodeU32(U32(b)) == b
  {
    var v := U32(b);
    var b0, b1, b2, b3: int := b[0], b[1], b[2], b[3];
    DivByConstant(v, 0x100_0000, b0, b1 * 0x1_0000 + b2 * 0x100 + b3);
    DivByConstant(v, 0x1_0000, b0 * 0x100 + b1, b2 * 0x100 + b3);
    DivByConstant(v, 0x100, b0 * 0x1_0000 + b1 * 0x100 + b2, b3);
    DivByConstant(b0 * 0x100 + b1, 0x100, b0, b1);
    DivByConstant(b0 * 0x1_0000 + b1 * 0x100 + b2, 0x100, b0 * 0x100 + b1, b2);
  }

  lemma ScaledStep(a: int, d: int)
    requires d > 0
    ensures a >= 1 ==> a * d >= d
    ensures a <= -1 ==> a * d <= -d
  {
    if a >= 1 {
      assert a * d == (a - 1) * d + d;
    } else if a <= -1 {
      assert a * d == (a + 1) * d - d;
    }
  }

  /** Division by a positive constant is determined by quotient and remainder. */
  lemma DivByConstant(v: int, d: int, q: int, r: int)
    requires d > 0 && v == q * d + r && 0 <= r < d
    ensures v / d == q && v % d == r
  {
    var q', r' := v / d, v % d;
    assert (q - q') * d == r' - r;
    ScaledStep(q - q', d);
  }

  lemma S32Inverse(b: seq<byte>)
    requires |b| == 4
    ensures EncodeS32(S32(b)) == b
  {
    U32Inverse(b);
  }
}
