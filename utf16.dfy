/**
 * UTF-16 big-endian text (RFC 2781) as Python's strict `decode('utf-16-be')`
 * reads it: the decode fails on an odd number of bytes and on a surrogate
 * that is not part of a high/low pair. Brush names and descriptor `TEXT`
 * values are decoded this way and then lose their trailing NUL characters.
 */
module Utf16 {
  import opened Wrappers
  import opened BigEndian

  type unit16 = u: int | 0 <= u < 0x1_0000

  predicate IsHighSurrogate(u: int) { 0xD800 <= u <= 0xDBFF }
  predicate IsLowSurrogate(u: int) { 0xDC00 <= u <= 0xDFFF }

  /** The big-endian 16-bit code units of an even-length byte string. */
  function Units(b: seq<byte>): (u: seq<unit16>)
    requires |b| % 2 == 0
    ensures |u| == |b| / 2
    decreases |b|
  {
    if b == [] then [] else [U16(b[..2])] + Units(b[2..])
  }

  function Combine(hi: unit16, lo: unit16): char
    requires IsHighSurrogate(hi) && IsLowSurrogate(lo)
  {
    (0x1_0000 + (hi - 0xD800) * 0x400 + (lo - 0xDC00)) as char
  }

  function DecodeUnits(u: seq<unit16>): Option<string>
    decreases |u|
  {
    if u == [] then Some("")
    else if IsHighSurrogate(u[0]) then
      if |u| >= 2 && IsLowSurrogate(u[1]) then
        var rest :- DecodeUnits(u[2..]);
        Some([Combine(u[0], u[1])] + rest)
      else
        None
    else if IsLowSurrogate(u[0]) then
      None
    else
      var rest :- DecodeUnits(u[1..]);
      Some([u[0] as char] + rest)
  }

  /** `bytes.decode('utf-16-be')`, `None` where Python raises `UnicodeDecodeError`. */
  function DecodeUtf16BE(b: seq<byte>): Option<string>
  {
    if |b| % 2 != 0 then None else DecodeUnits(Units(b))
  }

  /** `str.rstrip('\x00')` */
  function StripTrailingNul(s: string): (r: string)
    ensures r <= s
    ensures r == [] || r[|r| - 1] != '\0'
    ensures forall k :: |r| <= k < |s| ==> s[k] == '\0'
    decreases |s|
  {
    if s != [] && s[|s| - 1] == '\0' then StripTrailingNul(s[..|s| - 1]) else s
  }

  // The encoder, the inverse of the decoder on every string.

  function EncodeChar(c: char): (u: seq<unit16>)
    ensures 1 <= |u| <= 2
  {
    var v := c as int;
    if v < 0x1_0000 then [v]
    else [0xD800 + (v - 0x1_0000) / 0x400, 0xDC00 + (v - 0x1_0000) % 0x400]
  }

  function EncodeUnits(s: string): seq<unit16>
    decreases |s|
  {
    if s == [] then [] else EncodeChar(s[0]) + EncodeUnits(s[1..])
  }

  function UnitsToBytes(u: seq<unit16>): (b: seq<byte>)
    ensures |b| == 2 * |u|
    decreases |u|
  {
    if u == [] then [] else EncodeU16(u[0]) + UnitsToBytes(u[1..])
  }

  function EncodeUtf16BE(s: string): seq<byte>
  {
    UnitsToBytes(EncodeUnits(s))
  }

  lemma {:induction false} UnitsOfBytes(u: seq<unit16>)
    ensures Units(UnitsToBytes(u)) == u
    decreases |u|
  {
    if u != [] {
      var b := UnitsToBytes(u);
      assert b[..2] == EncodeU16(u[0]);
      assert b[2..] == UnitsToBytes(u[1..]);
      U16RoundTrip(u[0]);
      UnitsOfBytes(u[1..]);
    }
  }

  lemma DecodeChar(c: char, rest: seq<unit16>)
    ensures DecodeUnits(EncodeChar(c) + rest) ==
            (var r :- DecodeUnits(rest); Some([c] + r))
  {
    var v := c as int;
    var u := EncodeChar(c) + rest;
    if v < 0x1_0000 {
      assert u[0] == v && u[1..] == rest;
    } else {
      var hi, lo := (v - 0x1_0000) / 0x400, (v - 0x1_0000) % 0x400;
      assert u[0] == 0xD800 + hi && u[1] == 0xDC00 + lo && u[2..] == rest;
      assert Combine(u[0], u[1]) == c;
    }
  }

  lemma {:induction false} DecodeEncodeUnits(s: string)
    ensures DecodeUnits(EncodeUnits(s)) == Some(s)
    decreases |s|
  {
    if s != [] {
      DecodeChar(s[0], EncodeUnits(s[1..]));
      DecodeEncodeUnits(s[1..]);
      assert [s[0]] + s[1..] == s;
    }
  }

  /** Every string survives a UTF-16BE round trip. */
  lemma DecodeEncode(s: string)
    ensures DecodeUtf16BE(EncodeUtf16BE(s)) == Some(s)
  {
    UnitsOfBytes(EncodeUnits(s));
    DecodeEncodeUnits(s);
  }
}
