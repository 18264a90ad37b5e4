/**
 * What the two descriptor scanners (PSBrushExtract.py and
 * psbrushextract_dev.py) have in common: the eight 4-byte type markers,
 * `bytes.find`, the search for the nearest marker, the recovery of a
 * record's key from the printable bytes before its marker, the text
 * helpers the scanners apply (`strip`, ASCII decoding), and the records
 * both read the same way (`TEXT`, `UntF`, `long`, `bool`, `doub`).
 */
module DescriptorCommon {
  import opened Wrappers
  import opened BigEndian
  import Utf16

  // ---------------------------------------------------------------------
  // Markers

  datatype Kind = UntF | Bool | Long | Doub | Enum | Text | Objc | VlLs

  /** The marker's bytes in the data. */
  function Tag(k: Kind): (t: seq<byte>)
    ensures |t| == 4
  {
    match k
    case UntF => [0x55, 0x6E, 0x74, 0x46]  // "UntF"
    case Bool => [0x62, 0x6F, 0x6F, 0x6C]  // "bool"
    case Long => [0x6C, 0x6F, 0x6E, 0x67]  // "long"
    case Doub => [0x64, 0x6F, 0x75, 0x62]  // "doub"
    case Enum => [0x65, 0x6E, 0x75, 0x6D]  // "enum"
    case Text => [0x54, 0x45, 0x58, 0x54]  // "TEXT"
    case Objc => [0x4F, 0x62, 0x6A, 0x63]  // "Objc"
    case VlLs => [0x56, 0x6C, 0x4C, 0x73]  // "VlLs"
  }

  /** The type name the dictionary gives each marker. */
  function KindName(k: Kind): string
  {
    match k
    case UntF => "UntF"
    case Bool => "bool"
    case Long => "long"
    case Doub => "doub"
    case Enum => "enum"
    case Text => "TEXT"
    case Objc => "Objc"
    case VlLs => "VlLs"
  }

  /** Each type name is its marker's bytes read as text. */
  lemma NameIsTag(k: Kind)
    ensures KindName(k) == Chars(Tag(k))
  {
    var n, t := KindName(k), Chars(Tag(k));
    assert n[0] == t[0] && n[1] == t[1] && n[2] == t[2] && n[3] == t[3];
  }

  /** The markers in the order of the scanners' `type_markers` dictionary. */
  const Kinds: seq<Kind> := [UntF, Bool, Long, Doub, Enum, Text, Objc, VlLs]

  lemma AllKinds(k: Kind)
    ensures k in Kinds
  {
  }

  /** The eight markers are distinct byte strings. */
  lemma TagsDistinct(a: Kind, b: Kind)
    requires a != b
    ensures Tag(a) != Tag(b)
  {
    var i :| 0 <= i < 4 && Tag(a)[i] != Tag(b)[i];
  }

  /**
   * The marker at `pos`: the first of the dictionary's markers the four
   * bytes there equal. Since the markers are distinct, at most one does.
   */
  function MarkerAt(data: seq<byte>, pos: nat): (r: Option<Kind>)
    ensures r.Some? ==> pos + 4 <= |data| && data[pos..pos + 4] == Tag(r.value)
    ensures r.None? ==> forall k :: pos + 4 > |data| || data[pos..pos + 4] != Tag(k)
  {
    if pos + 4 > |data| then None
    else
      var w := data[pos..pos + 4];
      if w == Tag(UntF) then Some(UntF)
      else if w == Tag(Bool) then Some(Bool)
      else if w == Tag(Long) then Some(Long)
      else if w == Tag(Doub) then Some(Doub)
      else if w == Tag(Enum) then Some(Enum)
      else if w == Tag(Text) then Some(Text)
      else if w == Tag(Objc) then Some(Objc)
      else if w == Tag(VlLs) then Some(VlLs)
      else None
  }

  /** The order in which the markers are tried does not matter: the marker found is the one whose bytes are there. */
  lemma MarkerUnique(data: seq<byte>, pos: nat, k: Kind)
    requires pos + 4 <= |data|
    ensures MarkerAt(data, pos) == Some(k) <==> data[pos..pos + 4] == Tag(k)
  {
    var r := MarkerAt(data, pos);
    if data[pos..pos + 4] == Tag(k) && r != Some(k) {
      TagsDistinct(r.value, k);
    }
  }

  /** The scanners' `for marker_bytes, marker_name in type_markers.items()` test at `pos`. */
  method MatchMarker(data: seq<byte>, pos: nat) returns (r: Option<Kind>)
    requires pos + 4 <= |data|
    ensures r == MarkerAt(data, pos)
  {
    for j := 0 to |Kinds|
      invariant forall i :: 0 <= i < j ==> data[pos..pos + 4] != Tag(Kinds[i])
    {
      if data[pos..pos + 4] == Tag(Kinds[j]) {
        MarkerUnique(data, pos, Kinds[j]);
        return Some(Kinds[j]);
      }
    }
    var m := MarkerAt(data, pos);
    if m.Some? {
      AllKinds(m.value);
    }
    return None;
  }

  // ---------------------------------------------------------------------
  // Searching

  predicate Occurs(data: seq<byte>, pat: seq<byte>, i: nat)
  {
    i + |pat| <= |data| && data[i..i + |pat|] == pat
  }

  /** `data.find(pat, from)`: the first occurrence at or after `from`, `None` for -1. */
  function FindFrom(data: seq<byte>, pat: seq<byte>, from: nat): (r: Option<nat>)
    ensures r.Some? ==> from <= r.value && Occurs(data, pat, r.value)
    ensures forall i :: from <= i && (r.None? || i < r.value) ==> !Occurs(data, pat, i)
    decreases |data| - from
  {
    if from + |pat| > |data| then None
    else if data[from..from + |pat|] == pat then Some(from)
    else FindFrom(data, pat, from + 1)
  }

  /** The first position at or after `from` where some marker starts, or the end of the data. */
  function FirstMarkerFrom(data: seq<byte>, from: nat): (r: nat)
    ensures r <= |data|
    ensures from <= |data| ==> from <= r
    ensures r < |data| ==> MarkerAt(data, r).Some?
    ensures forall i :: from <= i < r ==> MarkerAt(data, i).None?
    decreases |data| - from
  {
    if from + 4 > |data| then |data|
    else if MarkerAt(data, from).Some? then from
    else FirstMarkerFrom(data, from + 1)
  }

  /** The nearest first occurrence, at or after `from`, of any of the markers `ks`, or the end of the data. */
  function NearestAmong(data: seq<byte>, from: nat, ks: seq<Kind>): (r: nat)
    ensures r <= |data|
    decreases |ks|
  {
    if ks == [] then |data|
    else
      var rest := NearestAmong(data, from, ks[..|ks| - 1]);
      match FindFrom(data, Tag(ks[|ks| - 1]), from)
      case None => rest
      case Some(found) => Min(rest, found)
  }

  /** The nearest occurrence is a marker, and no marker of `ks` occurs first before it. */
  lemma {:induction false} NearestAmongBounds(data: seq<byte>, from: nat, ks: seq<Kind>)
    ensures var r := NearestAmong(data, from, ks);
            (r < |data| ==> from <= r && MarkerAt(data, r).Some?) &&
            forall m | m in ks :: FindFrom(data, Tag(m), from).None? || r <= FindFrom(data, Tag(m), from).value
    decreases |ks|
  {
    hide MarkerAt;
    if ks != [] {
      var init, last := ks[..|ks| - 1], ks[|ks| - 1];
      NearestAmongBounds(data, from, init);
      assert ks == init + [last];
      var found := FindFrom(data, Tag(last), from);
      if found.Some? {
        MarkerUnique(data, found.value, last);
      }
    }
  }

  /** Taking the nearest occurrence over all eight markers finds the first marker position. */
  lemma NearestIsFirst(data: seq<byte>, from: nat)
    ensures NearestAmong(data, from, Kinds) == FirstMarkerFrom(data, from)
  {
    var r := NearestAmong(data, from, Kinds);
    NearestAmongBounds(data, from, Kinds);
    NoMarkerBefore(data, from, r);
    FirstMarkerUnique(data, from, r);
  }

  /** The first marker position is the one position that has a marker (or is the end) with none before it. */
  lemma {:induction false} FirstMarkerUnique(data: seq<byte>, from: nat, r: nat)
    requires r <= |data|
    requires r < |data| ==> from <= r && MarkerAt(data, r).Some?
    requires forall i :: from <= i < r ==> MarkerAt(data, i).None?
    ensures FirstMarkerFrom(data, from) == r
    decreases |data| - from
  {
    if from + 4 <= |data| && from < r {
      FirstMarkerUnique(data, from + 1, r);
    }
  }

  /**
   * `next_pos = L; for m in type_markers: found = data.find(m, from); if found
   * != -1: next_pos = min(next_pos, found)`: the nearest marker occurrence at
   * or after `from`, or the end of the data.
   */
  method NearestMarker(data: seq<byte>, from: nat) returns (next: nat)
    ensures next == FirstMarkerFrom(data, from)
  {
    next := |data|;
    for j := 0 to |Kinds|
      invariant next == NearestAmong(data, from, Kinds[..j])
    {
      assert Kinds[..j + 1][..j] == Kinds[..j];
      var found := FindFrom(data, Tag(Kinds[j]), from);
      if found.Some? {
        next := Min(next, found.value);
      }
    }
    assert Kinds[..|Kinds|] == Kinds;
    NearestIsFirst(data, from);
  }

  /** No marker starts before a position that no marker's first occurrence precedes. */
  lemma NoMarkerBefore(data: seq<byte>, from: nat, next: nat)
    requires forall m | m in Kinds :: FindFrom(data, Tag(m), from).None? || next <= FindFrom(data, Tag(m), from).value
    ensures forall i :: from <= i < next ==> MarkerAt(data, i).None?
  {
    forall i | from <= i < next
      ensures MarkerAt(data, i).None?
    {
      var r := MarkerAt(data, i);
      if r.Some? {
        AllKinds(r.value);
        assert Occurs(data, Tag(r.value), i);
      }
    }
  }

  // ---------------------------------------------------------------------
  // Keys and text

  predicate Printable(b: byte)
  {
    32 <= b <= 126
  }

  /** Bytes read as the characters of the same code. */
  function Chars(b: seq<byte>): (s: string)
    ensures |s| == |b|
    ensures forall k :: 0 <= k < |b| ==> s[k] as int == b[k]
  {
    seq(|b|, k requires 0 <= k < |b| => b[k] as char)
  }

  lemma CharsSnoc(b: seq<byte>, x: byte)
    ensures Chars(b + [x]) == Chars(b) + [x as char]
  {
  }

  lemma CharsCons(b: seq<byte>)
    requires b != []
    ensures Chars(b) == [b[0] as char] + Chars(b[1..])
  {
  }

  /** Where the run of printable bytes that ends at `j` starts. */
  function RunStart(seg: seq<byte>, j: nat): (r: nat)
    requires j <= |seg|
    ensures r <= j
    ensures forall k :: r <= k < j ==> Printable(seg[k])
    ensures r == 0 || !Printable(seg[r - 1])
    decreases j
  {
    if j == 0 || !Printable(seg[j - 1]) then j else RunStart(seg, j - 1)
  }

  /** The run's start is the only position with those properties. */
  lemma {:induction false} RunStartUnique(seg: seq<byte>, j: nat, r: nat)
    requires r <= j <= |seg|
    requires forall k :: r <= k < j ==> Printable(seg[k])
    requires r == 0 || !Printable(seg[r - 1])
    ensures RunStart(seg, j) == r
    decreases j
  {
    if j > r {
      RunStartUnique(seg, j - 1, r);
    }
  }

  /** The longest run of printable bytes that ends the segment, as text. */
  function TrailingPrintable(seg: seq<byte>): string
  {
    Chars(seg[RunStart(seg, |seg|)..])
  }

  /** Python's `str.isspace()` on one ASCII character. */
  predicate IsSpace(c: char)
  {
    c == ' ' || 9 <= c as int <= 13 || 28 <= c as int <= 31
  }

  /** `str.lstrip()` */
  function StripStart(s: string): (r: string)
    ensures |r| <= |s| && r == s[|s| - |r|..]
    ensures forall k :: 0 <= k < |s| - |r| ==> IsSpace(s[k])
    ensures r == [] || !IsSpace(r[0])
    ensures forall c | c in r :: c in s
    decreases |s|
  {
    if s != [] && IsSpace(s[0]) then StripStart(s[1..]) else s
  }

  /** `str.rstrip()` */
  function StripEnd(s: string): (r: string)
    ensures |r| <= |s| && r == s[..|r|]
    ensures forall k :: |r| <= k < |s| ==> IsSpace(s[k])
    ensures r == [] || !IsSpace(r[|r| - 1])
    ensures forall c | c in r :: c in s
    decreases |s|
  {
    if s != [] && IsSpace(s[|s| - 1]) then StripEnd(s[..|s| - 1]) else s
  }

  /** `str.strip()`: no whitespace left at either end, and only whitespace removed. */
  function Strip(s: string): (r: string)
    ensures |r| <= |s|
    ensures r == [] || (!IsSpace(r[0]) && !IsSpace(r[|r| - 1]))
    ensures forall c | c in r :: c in s
    ensures var lead := |s| - |StripStart(s)|;
            lead + |r| <= |s| && r == s[lead..lead + |r|] &&
            (forall k :: 0 <= k < lead ==> IsSpace(s[k])) &&
            (forall k :: lead + |r| <= k < |s| ==> IsSpace(s[k]))
  {
    StripEnd(StripStart(s))
  }

  /**
   * `find_printable_key_before(data, pos)`: the printable run (bytes 32..126)
   * among the 50 bytes before `pos`, read backwards from `pos`, then stripped.
   */
  function KeyBefore(data: seq<byte>, pos: nat): string
    requires pos <= |data|
  {
    Strip(TrailingPrintable(data[if pos >= 50 then pos - 50 else 0..pos]))
  }

  /** At most 50 printable ASCII characters, with no whitespace at either end. */
  predicate KeyShaped(key: string)
  {
    |key| <= 50 &&
    (forall c | c in key :: 32 <= c as int <= 126) &&
    (key == [] || (!IsSpace(key[0]) && !IsSpace(key[|key| - 1])))
  }

  /** Every key the helper returns has that shape. */
  lemma KeyShape(data: seq<byte>, pos: nat)
    requires pos <= |data|
    ensures KeyShaped(KeyBefore(data, pos))
  {
    hide Strip, TrailingPrintable;
    PrintableRun(data[if pos >= 50 then pos - 50 else 0..pos]);
  }

  /** The trailing run holds printable characters only. */
  lemma PrintableRun(seg: seq<byte>)
    ensures |TrailingPrintable(seg)| <= |seg|
    ensures forall c | c in TrailingPrintable(seg) :: 32 <= c as int <= 126
  {
    hide Chars;
    var start := RunStart(seg, |seg|);
    var run := TrailingPrintable(seg);
    forall c | c in run
      ensures 32 <= c as int <= 126
    {
      var k :| 0 <= k < |run| && run[k] == c;
      assert Printable(seg[start + k]);
    }
  }

  /** `find_printable_key_before`: the last 50 bytes before `pos`, their trailing printable run, stripped. */
  method FindPrintableKeyBefore(data: seq<byte>, pos: nat) returns (key: string)
    requires pos <= |data|
    ensures key == KeyBefore(data, pos)
  {
    var start := if pos >= 50 then pos - 50 else 0;
    var run := CollectRun(data[start..pos]);
    key := Strip(run);
  }

  /** The key-building loop: prepend characters while the byte before is printable. */
  method CollectRun(segment: seq<byte>) returns (run: string)
    ensures run == TrailingPrintable(segment)
  {
    hide Chars;
    run := "";
    var i := |segment| - 1;
    while i >= 0
      invariant -1 <= i < |segment|
      invariant run == Chars(segment[i + 1..])
      invariant forall k :: i < k < |segment| ==> Printable(segment[k])
    {
      if Printable(segment[i]) {
        RunPrepend(segment, i);
        run := [segment[i] as char] + run;
      } else {
        break;
      }
      i := i - 1;
    }
    RunEnd(segment, i + 1);
  }

  /** One more byte to the left of a run, read as text. */
  lemma RunPrepend(segment: seq<byte>, i: nat)
    requires i < |segment|
    ensures Chars(segment[i..]) == [segment[i] as char] + Chars(segment[i + 1..])
  {
    CharsCons(segment[i..]);
    assert segment[i..][1..] == segment[i + 1..];
  }

  /** Where the loop stops, the text collected is the trailing printable run. */
  lemma RunEnd(segment: seq<byte>, r: nat)
    requires r <= |segment|
    requires forall k :: r <= k < |segment| ==> Printable(segment[k])
    requires r == 0 || !Printable(segment[r - 1])
    ensures TrailingPrintable(segment) == Chars(segment[r..])
  {
    RunStartUnique(segment, |segment|, r);
  }

  /** `bytes.decode('ascii', errors='ignore')`: the bytes below 128, as characters. */
  function AsciiIgnore(b: seq<byte>): (s: string)
    ensures |s| <= |b|
    ensures forall k :: 0 <= k < |s| ==> s[k] as int < 128
    decreases |b|
  {
    if b == [] then ""
    else (if b[0] < 128 then [b[0] as char] else "") + AsciiIgnore(b[1..])
  }

  /** Decoding byte by byte from the front: each byte below 128 is kept, in order, and every other byte dropped. */
  lemma {:induction false} AsciiIgnoreSnoc(b: seq<byte>, x: byte)
    ensures AsciiIgnore(b + [x]) == AsciiIgnore(b) + (if x < 128 then [x as char] else "")
    decreases |b|
  {
    if b != [] {
      assert (b + [x])[1..] == b[1..] + [x];
      AsciiIgnoreSnoc(b[1..], x);
    } else {
      assert [x][1..] == [];
    }
  }

  /** Bytes that are all ASCII decode to themselves, character for byte. */
  lemma {:induction false} AsciiIgnoreAscii(b: seq<byte>)
    requires forall k :: 0 <= k < |b| ==> b[k] < 128
    ensures AsciiIgnore(b) == Chars(b)
    decreases |b|
  {
    if b != [] {
      AsciiIgnoreAscii(b[1..]);
      CharsCons(b);
    }
  }

  /** `t` is `s` with its trailing NUL characters removed. */
  predicate TrimmedOf(t: string, s: string)
  {
    t <= s && (t == [] || t[|t| - 1] != '\0') && forall k :: |t| <= k < |s| ==> s[k] == '\0'
  }

  predicate AllNul(s: string)
  {
    forall k :: 0 <= k < |s| ==> s[k] == '\0'
  }

  /** Removing trailing NULs leaves nothing exactly when the text is all NULs. */
  lemma TrimmedEmpty(t: string, s: string)
    requires TrimmedOf(t, s)
    ensures t == [] <==> AllNul(s)
  {
    if t != [] {
      assert s[|t| - 1] == t[|t| - 1];
    }
  }

  /** The text helper `StripTrailingNul` removes exactly the trailing NULs. */
  lemma StripTrimmed(s: string)
    ensures TrimmedOf(Utf16.StripTrailingNul(s), s)
  {
  }

  /** One hexadecimal digit, lower case as `bytes.hex()` writes it. */
  function HexDigit(n: nat): (c: char)
    requires n < 16
    ensures IsHexDigit(c)
  {
    if n < 10 then (48 + n) as char else (87 + n) as char
  }

  predicate IsHexDigit(c: char)
  {
    '0' <= c <= '9' || 'a' <= c <= 'f'
  }

  function HexValue(c: char): (n: nat)
    requires IsHexDigit(c)
    ensures n < 16
  {
    if c <= '9' then c as int - 48 else c as int - 87
  }

  /** `bytes.hex()`: two lower-case hexadecimal digits per byte, high digit first. */
  function HexString(b: seq<byte>): (h: string)
    ensures |h| == 2 * |b|
    ensures forall c | c in h :: IsHexDigit(c)
  {
    if b == [] then "" else [HexDigit(b[0] / 16), HexDigit(b[0] % 16)] + HexString(b[1..])
  }

  /** Reading a hex dump back: `None` for an odd length or a character that is not a digit. */
  function ParseHex(h: string): Option<seq<byte>>
    decreases |h|
  {
    if h == [] then Some([])
    else if |h| == 1 || !IsHexDigit(h[0]) || !IsHexDigit(h[1]) then None
    else
      var rest :- ParseHex(h[2..]);
      Some([16 * HexValue(h[0]) + HexValue(h[1])] + rest)
  }

  /** A hex dump holds exactly the bytes it was made from. */
  lemma {:induction false} HexRoundTrip(b: seq<byte>)
    ensures ParseHex(HexString(b)) == Some(b)
    decreases |b|
  {
    if b != [] {
      HexRoundTrip(b[1..]);
      var h := HexString(b);
      assert h[2..] == HexString(b[1..]);
      assert h[0] == HexDigit(b[0] / 16) && h[1] == HexDigit(b[0] % 16);
      assert HexValue(h[0]) == b[0] / 16 && HexValue(h[1]) == b[0] % 16;
      assert ParseHex(h) == Some([b[0]] + b[1..]);
      assert [b[0]] + b[1..] == b;
    }
  }

  // ---------------------------------------------------------------------
  // Results

  /**
   * A result's value. Doubles are carried as their 8 raw bytes; a `TEXT`
   * that is not valid UTF-16BE keeps its raw bytes (the UTF-8 fallback is not
   * decoded). The texts the scanners build around a hex dump, and the
   * `no_class_found` text, are carried as what they are made of; `Rendered`
   * renders them.
   */
  datatype Value =
    | Str(text: string)
    | Int(number: int)
    | Flag(flag: bool)
    | Double(bits: seq<byte>)
    | Undecoded(raw: seq<byte>)
    | NoClass
    | Skipped(raw: seq<byte>)
    | Coded(code: string, raw: seq<byte>)

  /** The text of a string value, as the scanner writes it. */
  function Rendered(v: Value): string
    requires v.Str? || v.NoClass? || v.Skipped? || v.Coded?
  {
    match v
    case Str(text) => text
    case NoClass => "no_class_found"
    case Skipped(raw) => "skipped (0x" + HexString(raw) + ")"
    case Coded(code, raw) => code + " (0x" + HexString(raw) + ")"
  }

  /** A rendered dump ends with the hex digits of exactly the bytes dumped. */
  lemma SkippedText(raw: seq<byte>)
    ensures var t := Rendered(Skipped(raw));
            |t| == 12 + 2 * |raw| && ParseHex(t[11..|t| - 1]) == Some(raw)
  {
    var t := Rendered(Skipped(raw));
    assert t[11..|t| - 1] == HexString(raw);
    HexRoundTrip(raw);
  }

  /** A result's type name: a marker's name, or `UntF#` and a unit code. */
  datatype Label = Plain(kind: Kind) | Unit(code: string)

  /** The marker whose record a result came from. */
  function Marker(l: Label): Kind
  {
    match l
    case Plain(k) => k
    case Unit(_) => UntF
  }

  /** The type name as the scanner writes it: it starts with the marker's bytes read as text. */
  function LabelText(l: Label): (t: string)
    ensures |t| >= 4 && t[..4] == Chars(Tag(Marker(l)))
  {
    NameIsTag(Marker(l));
    match l
    case Plain(k) => KindName(k)
    case Unit(code) => "UntF#" + code
  }

  /** One result tuple: the key, the type name, the value. */
  datatype Entry = Entry(key: string, name: Label, value: Value)

  /** What one pass of a scanner's loop produced: the entry appended (if any), and the next position. */
  datatype Scan = Scan(entry: Option<Entry>, next: nat)

  /** No marker (or too few bytes for its record): the position is treated as unmatched. */
  function Unmatched(pos: nat): Scan
  {
    Scan(None, pos + 1)
  }

  /**
   * A `TEXT` record: an unsigned 32-bit count of UTF-16 units, then the text,
   * cut off at the end of the data. The scan resumes where the text ends.
   */
  function TextAt(data: seq<byte>, pos: nat, key: string): (s: Scan)
    requires pos + 8 <= |data|
    ensures s.next == Min(pos + 8 + 2 * U32(data[pos + 4..pos + 8]), |data|)
    ensures pos + 8 <= s.next <= |data|
    ensures s.entry.Some? && s.entry.value.key == key && s.entry.value.name == Plain(Text)
  {
    var count := U32(data[pos + 4..pos + 8]);
    var end := Min(pos + 8 + count * 2, |data|);
    var raw := data[pos + 8..end];
    var value := match Utf16.DecodeUtf16BE(raw)
                 case Some(text) => Str(Utf16.StripTrailingNul(text))
                 case None => Undecoded(raw);
    Scan(Some(Entry(key, Plain(Text), value)), end)
  }

  /** The marker kinds whose records both scanners read the same way. */
  predicate Fixed(kind: Kind)
  {
    kind == Text || kind == UntF || kind == Long || kind == Bool || kind == Doub
  }

  /** How many bytes a fixed-width record needs: 18 for `UntF`, 8 for `long`, 5 for `bool`, 12 for `doub`, 8 for a `TEXT` header. */
  function Width(kind: Kind): nat
    requires Fixed(kind)
  {
    match kind
    case Text => 8
    case UntF => 18
    case Long => 8
    case Bool => 5
    case Doub => 12
  }

  /**
   * The records both scanners read the same way, at a `kind` marker at `pos`:
   * `None` when too few bytes remain for the record.
   */
  function FixedAt(data: seq<byte>, pos: nat, kind: Kind, key: string): (r: Option<Scan>)
    requires Fixed(kind)
    ensures r.None? <==> pos + Width(kind) > |data|
    ensures r.Some? ==> pos < r.value.next <= |data| && r.value.entry.Some?
    ensures r.Some? ==> r.value.entry.value.key == key && Marker(r.value.entry.value.name) == kind
    ensures r.Some? && kind != Text ==> r.value.next == pos + Width(kind)
    ensures r.Some? && kind == Text ==> r.value == TextAt(data, pos, key)
    ensures r.Some? && kind == UntF ==>
              r.value.entry.value.name == Unit(Strip(AsciiIgnore(data[pos + 4..pos + 8]))) &&
              r.value.entry.value.value == Double(data[pos + 8..pos + 16])
    ensures r.Some? && kind == Long ==> r.value.entry.value.value == Int(S32(data[pos + 4..pos + 8]))
    ensures r.Some? && kind == Bool ==> r.value.entry.value.value == Flag(data[pos + 4] != 0)
    ensures r.Some? && kind == Doub ==> r.value.entry.value.value == Double(data[pos + 4..pos + 12])
  {
    match kind
    case Text =>
      if pos + 8 <= |data| then Some(TextAt(data, pos, key)) else None
    case UntF =>
      if pos + 18 <= |data| then
        Some(Scan(Some(Entry(key, Unit(Strip(AsciiIgnore(data[pos + 4..pos + 8]))), Double(data[pos + 8..pos + 16]))), pos + 18))
      else None
    case Long =>
      if pos + 8 <= |data| then Some(Scan(Some(Entry(key, Plain(Long), Int(S32(data[pos + 4..pos + 8])))), pos + 8)) else None
    case Bool =>
      if pos + 5 <= |data| then Some(Scan(Some(Entry(key, Plain(Bool), Flag(data[pos + 4] != 0))), pos + 5)) else None
    case Doub =>
      if pos + 12 <= |data| then Some(Scan(Some(Entry(key, Plain(Doub), Double(data[pos + 4..pos + 12]))), pos + 12)) else None
  }

  /**
   * A record the scanner does not decode (`VlLs`, and `Objc` in the
   * development scanner): its bytes from the marker up to the nearest marker
   * after it, or to the end of the data, reported as a hex dump; the scan
   * resumes at that marker.
   */
  function DumpAt(data: seq<byte>, pos: nat, key: string, kind: Kind): (s: Scan)
    requires pos + 4 <= |data|
    ensures pos + 4 <= s.next <= |data|
    ensures forall i :: pos + 4 <= i < s.next ==> MarkerAt(data, i).None?
    ensures s.next < |data| ==> MarkerAt(data, s.next).Some?
    ensures s.entry == Some(Entry(key, Plain(kind), Skipped(data[pos..s.next])))
  {
    var next := FirstMarkerFrom(data, pos + 4);
    Scan(Some(Entry(key, Plain(kind), Skipped(data[pos..next]))), next)
  }

  /** The dump branch: the nearest-marker loop, then the bytes before it. */
  method DumpRecord(data: seq<byte>, pos: nat, key: string, kind: Kind) returns (s: Scan)
    requires pos + 4 <= |data|
    ensures s == DumpAt(data, pos, key, kind)
  {
    var next := NearestMarker(data, pos + 4);
    s := Scan(Some(Entry(key, Plain(kind), Skipped(data[pos..next]))), next);
  }
}
