/**
 * `parse_brush_parameters` of psbrushextract_dev.py, the development
 * variant of the descriptor scan. It reads `TEXT`, `UntF`, `long`, `bool`,
 * `doub` and `VlLs` records as the released scanner does; an `enum` record
 * becomes its four-byte code and a hex dump, and an `Objc` record a hex dump
 * of the bytes up to the next marker.
 */
module DescriptorScanDev {
  import opened Wrappers
  import opened BigEndian
  import opened DescriptorCommon
  import DescriptorScan
  import Utf16

  /** An `enum` code: the four bytes after the marker as ASCII, trailing NULs removed. */
  function EnumCode(data: seq<byte>, pos: nat): (code: string)
    requires pos + 8 <= |data|
    ensures |code| <= 4
    ensures forall c | c in code :: c as int < 128
    ensures code == [] || code[|code| - 1] != '\0'
    ensures TrimmedOf(code, AsciiIgnore(data[pos + 4..pos + 8]))
  {
    StripTrimmed(AsciiIgnore(data[pos + 4..pos + 8]));
    Utf16.StripTrailingNul(AsciiIgnore(data[pos + 4..pos + 8]))
  }

  /**
   * An `enum` record as the code reads it: the marker loop leaves `next_pos`
   * at `pos + 8`, so the dump holds the four code bytes only and the scan
   * resumes eight bytes after the marker.
   */
  function EnumAt(data: seq<byte>, pos: nat, key: string): (s: Scan)
    requires pos + 8 <= |data|
    ensures s.next == pos + 8
    ensures s.entry == Some(Entry(key, Plain(Enum), Coded(EnumCode(data, pos), data[pos + 4..pos + 8])))
  {
    Scan(Some(Entry(key, Plain(Enum), Coded(EnumCode(data, pos), data[pos + 4..pos + 8]))), pos + 8)
  }

  /**
   * The `enum` branch's marker loop: `next_pos` starts at `pos + 8` and every
   * search starts at `next_pos`, so no occurrence found is ever below it and
   * the loop leaves it where it started.
   */
  method EnumDumpEnd(data: seq<byte>, pos: nat) returns (next: nat)
    requires pos + 8 <= |data|
    ensures next == pos + 8
  {
    next := pos + 8;
    for j := 0 to |Kinds|
      invariant next == pos + 8
    {
      var found := FindFrom(data, Tag(Kinds[j]), next);
      if found.Some? {
        next := Min(next, found.value);
      }
    }
  }

  /** The `enum` branch. */
  method EnumRecord(data: seq<byte>, pos: nat, key: string) returns (s: Scan)
    requires pos + 8 <= |data|
    ensures s == EnumAt(data, pos, key)
  {
    var code := Utf16.StripTrailingNul(AsciiIgnore(data[pos + 4..pos + 8]));
    var next := EnumDumpEnd(data, pos);
    s := Scan(Some(Entry(key, Plain(Enum), Coded(code, data[pos + 4..next]))), if next > pos + 8 then next else pos + 8);
  }

  /** The branch for the marker `kind` found at `pos`, whose key is `key`. */
  function RecordAt(data: seq<byte>, pos: nat, kind: Kind, key: string): (s: Scan)
    requires pos + 4 < |data|
    ensures pos < s.next <= |data|
    ensures s.entry.Some? ==>
              s.entry.value.key == key && Marker(s.entry.value.name) == kind
    ensures s.entry.None? <==> (Fixed(kind) && pos + Width(kind) > |data|) || (kind == Enum && pos + 8 > |data|)
    ensures s.entry.None? ==> s == Unmatched(pos)
  {
    match kind
    case Enum => if pos + 8 <= |data| then EnumAt(data, pos, key) else Unmatched(pos)
    case Objc => DumpAt(data, pos, key, Objc)
    case VlLs => DumpAt(data, pos, key, VlLs)
    case _ =>
      match FixedAt(data, pos, kind, key)
      case Some(s) => s
      case None => Unmatched(pos)
  }

  /** One pass of the `while pos < L - 4` loop at `pos`. */
  function StepAt(data: seq<byte>, pos: nat): (s: Scan)
    requires pos + 4 < |data|
    ensures pos < s.next <= |data|
    ensures s.entry.Some? ==> MarkerAt(data, pos).Some? && s.entry.value.key == KeyBefore(data, pos)
  {
    match MarkerAt(data, pos)
    case None => Unmatched(pos)
    case Some(kind) => RecordAt(data, pos, kind, KeyBefore(data, pos))
  }

  /** The results of the scan from `pos` on, in the order they are appended. */
  function ScanFrom(data: seq<byte>, pos: nat): seq<Entry>
    requires pos <= |data|
    decreases |data| - pos
  {
    if pos + 4 < |data| then
      var s := StepAt(data, pos);
      AsSeq(s.entry) + ScanFrom(data, s.next)
    else []
  }

  /** `parse_brush_parameters(data)`: nothing without an `Objc` marker, else the scan from the first one. */
  function Parse(data: seq<byte>): seq<Entry>
  {
    match FindFrom(data, Tag(Objc), 0)
    case None => []
    case Some(first) => ScanFrom(data, first)
  }

  /** The branch for the marker found. */
  method Record(data: seq<byte>, pos: nat, kind: Kind, key: string) returns (s: Scan)
    requires pos + 4 < |data|
    ensures s == RecordAt(data, pos, kind, key)
  {
    match kind
    case Enum =>
      if pos + 8 <= |data| {
        s := EnumRecord(data, pos, key);
      } else {
        s := Unmatched(pos);
      }
    case Objc =>
      s := DumpRecord(data, pos, key, Objc);
    case VlLs =>
      s := DumpRecord(data, pos, key, VlLs);
    case _ =>
      var fixed := FixedAt(data, pos, kind, key);
      s := if fixed.Some? then fixed.value else Unmatched(pos);
  }

  /** One pass of the loop: the marker test, the key, and the branch for the marker found. */
  method Step(data: seq<byte>, pos: nat) returns (s: Scan)
    requires pos + 4 < |data|
    ensures s == StepAt(data, pos)
  {
    var marker := MatchMarker(data, pos);
    if marker.None? {
      return Unmatched(pos);
    }
    var key := FindPrintableKeyBefore(data, pos);
    s := Record(data, pos, marker.value, key);
  }

  /** One pass of the loop appends the pass's result, if any, to what the scan has yielded so far. */
  lemma ScanAppend(data: seq<byte>, start: nat, pos: nat, results: seq<Entry>, s: Scan)
    requires start <= |data| && pos + 4 < |data| && s == StepAt(data, pos)
    requires ScanFrom(data, start) == results + ScanFrom(data, pos)
    ensures ScanFrom(data, start) == (if s.entry.Some? then results + [s.entry.value] else results) + ScanFrom(data, s.next)
  {
    hide StepAt;
    var rest := ScanFrom(data, s.next);
    assert ScanFrom(data, pos) == AsSeq(s.entry) + rest;
    if s.entry.Some? {
      assert results + ([s.entry.value] + rest) == (results + [s.entry.value]) + rest;
    } else {
      assert AsSeq(s.entry) + rest == rest;
    }
  }

  /** `parse_brush_parameters`: the results, in scan order. */
  method ParseBrushParameters(data: seq<byte>) returns (results: seq<Entry>)
    ensures results == Parse(data)
  {
    hide StepAt;
    results := [];
    var first := FindFrom(data, Tag(Objc), 0);
    if first.None? {
      return;
    }
    var pos := first.value;
    while pos + 4 < |data|
      invariant pos <= |data|
      invariant ScanFrom(data, first.value) == results + ScanFrom(data, pos)
      decreases |data| - pos
    {
      var s := Step(data, pos);
      ScanAppend(data, first.value, pos, results, s);
      if s.entry.Some? {
        results := results + [s.entry.value];
      }
      pos := s.next;
    }
  }

  // ---------------------------------------------------------------------
  // Properties

  /** For `TEXT`, `UntF`, `long`, `bool`, `doub` and `VlLs` records the two scanners take the same step. */
  lemma SameAsReleased(data: seq<byte>, pos: nat, kind: Kind, key: string)
    requires pos + 4 < |data| && kind != Enum && kind != Objc
    ensures RecordAt(data, pos, kind, key) == DescriptorScan.RecordAt(data, pos, kind, key)
  {
  }

  /**
   * An `Objc` result is a dump that starts with the marker itself and holds
   * every byte up to the next marker; the scan resumes at that marker.
   */
  lemma ObjcDump(data: seq<byte>, pos: nat)
    requires pos + 4 < |data| && MarkerAt(data, pos) == Some(Objc)
    ensures var s := StepAt(data, pos);
            s.entry.Some? && s.entry.value.name == Plain(Objc) &&
            pos + 4 <= s.next <= |data| &&
            s.entry.value.value == Skipped(data[pos..s.next]) &&
            data[pos..s.next][..4] == Tag(Objc) &&
            (s.next < |data| ==> MarkerAt(data, s.next).Some?) &&
            forall i :: pos + 4 <= i < s.next ==> MarkerAt(data, i).None?
  {
    hide EnumAt, FixedAt;
    var s := DumpAt(data, pos, KeyBefore(data, pos), Objc);
    assert StepAt(data, pos) == s;
    assert data[pos..s.next][..4] == data[pos..pos + 4];
  }

  /** Bytes where no marker starts yield nothing: the scan from any of them is the scan from the first marker. */
  lemma {:induction false} UnmatchedRun(data: seq<byte>, p: nat, q: nat)
    requires p <= q <= |data|
    requires forall i :: p <= i < q ==> MarkerAt(data, i).None?
    ensures ScanFrom(data, p) == ScanFrom(data, q)
    decreases q - p
  {
    hide RecordAt;
    if p < q && p + 4 < |data| {
      assert StepAt(data, p) == Unmatched(p);
      assert ScanFrom(data, p) == [] + ScanFrom(data, p + 1);
      UnmatchedRun(data, p + 1, q);
    }
  }

  // ---------------------------------------------------------------------
  // The enum dump

  /**
   * An `enum` record dumped the way the `Objc` and `VlLs` branches dump
   * theirs, and as the comment on the marker loop describes it: every byte
   * from the code up to the nearest marker at or after `pos + 8`, the scan
   * resuming at that marker. The scanner does not read records this way;
   * this definition is the yardstick for what its four-byte dump leaves out.
   */
  function DelimitedEnumAt(data: seq<byte>, pos: nat, key: string): (s: Scan)
    requires pos + 8 <= |data|
    ensures pos + 8 <= s.next <= |data|
    ensures s.next < |data| ==> MarkerAt(data, s.next).Some?
    ensures forall i :: pos + 8 <= i < s.next ==> MarkerAt(data, i).None?
    ensures s.entry == Some(Entry(key, Plain(Enum), Coded(EnumCode(data, pos), data[pos + 4..s.next])))
  {
    var next := FirstMarkerFrom(data, pos + 8);
    Scan(Some(Entry(key, Plain(Enum), Coded(EnumCode(data, pos), data[pos + 4..next]))), next)
  }

  /**
   * The fixed eight-byte advance loses no result: the bytes it resumes at,
   * up to the next marker, start no record, so the scan from there yields
   * what the scan from the next marker yields. Only the dump is shorter.
   */
  lemma EnumResumesAtMarker(data: seq<byte>, pos: nat, key: string)
    requires pos + 8 <= |data|
    ensures ScanFrom(data, EnumAt(data, pos, key).next) == ScanFrom(data, DelimitedEnumAt(data, pos, key).next)
  {
    hide StepAt;
    UnmatchedRun(data, pos + 8, DelimitedEnumAt(data, pos, key).next);
  }

  /** Every marker starts with a byte of at least 0x4F, so a smaller byte starts none. */
  lemma SmallByteNoMarker(data: seq<byte>, pos: nat)
    requires pos < |data| && data[pos] < 0x4F
    ensures MarkerAt(data, pos).None?
  {
    if pos + 4 <= |data| {
      forall k
        ensures data[pos..pos + 4] != Tag(k)
      {
        assert data[pos..pos + 4][0] == data[pos] < 0x4F <= Tag(k)[0];
      }
    }
  }

  /**
   * The dump stops short of the next marker: for `enum`, a code and four
   * more bytes that start no marker, the scanner dumps the four code bytes
   * only, while the bytes up to the next marker (here the end of the data)
   * are eight.
   */
  lemma EnumDumpStopsShort()
    ensures var data: seq<byte> := [0x65, 0x6E, 0x75, 0x6D, 0x61, 0x62, 0x63, 0x64, 1, 2, 3, 4];
            EnumAt(data, 0, "").entry.value.value.raw == data[4..8] &&
            DelimitedEnumAt(data, 0, "").entry.value.value.raw == data[4..12]
  {
    var data: seq<byte> := [0x65, 0x6E, 0x75, 0x6D, 0x61, 0x62, 0x63, 0x64, 1, 2, 3, 4];
    SmallByteNoMarker(data, 8);
    assert FirstMarkerFrom(data, 8) == 12;
  }
}
