/**
 * `parse_brush_parameters` of PSBrushExtract.py: a heuristic scan of a
 * brush file's descriptor bytes. From the first `Objc` marker on, every
 * position is tested for one of the eight type markers; a record found
 * there yields one `(key, type, value)` result and moves the scan past it,
 * anything else moves it one byte on.
 */
module DescriptorScan {
  import opened Wrappers
  import opened BigEndian
  import opened DescriptorCommon
  import Utf16

  // ---------------------------------------------------------------------
  // enum

  /** The bytes skipped before an enum's value: NUL and space. */
  function PadEnd(data: seq<byte>, i: nat): (j: nat)
    requires i <= |data|
    ensures i <= j <= |data|
    ensures forall k :: i <= k < j ==> data[k] == 0 || data[k] == 32
    ensures j == |data| || (data[j] != 0 && data[j] != 32)
    decreases |data| - i
  {
    if i < |data| && (data[i] == 0 || data[i] == 32) then PadEnd(data, i + 1) else i
  }

  /** The end of the run of printable bytes that starts at `i`. */
  function PrintableEnd(data: seq<byte>, i: nat): (j: nat)
    requires i <= |data|
    ensures i <= j <= |data|
    ensures forall k :: i <= k < j ==> Printable(data[k])
    ensures j == |data| || !Printable(data[j])
    decreases |data| - i
  {
    if i < |data| && Printable(data[i]) then PrintableEnd(data, i + 1) else i
  }

  /** The characters an enum value keeps: ASCII letters and digits (`isalnum`), space, `.`, `-`, `_`. */
  predicate EnumChar(c: char)
  {
    'a' <= c <= 'z' || 'A' <= c <= 'Z' || '0' <= c <= '9' || c == ' ' || c == '.' || c == '-' || c == '_'
  }

  /** The characters of `s` an enum value keeps, in order. */
  function KeepEnumChars(s: string): (r: string)
    ensures |r| <= |s|
    ensures forall c | c in r :: EnumChar(c) && c in s
    ensures forall c | c in s && EnumChar(c) :: c in r
  {
    if s == [] then [] else (if EnumChar(s[0]) then [s[0]] else []) + KeepEnumChars(s[1..])
  }

  /** Keeping characters one at a time, from the front, gives the same text. */
  lemma {:induction false} KeepAppend(s: string, c: char)
    ensures KeepEnumChars(s + [c]) == KeepEnumChars(s) + (if EnumChar(c) then [c] else [])
    decreases |s|
  {
    if s != [] {
      assert (s + [c])[1..] == s[1..] + [c];
      KeepAppend(s[1..], c);
    } else {
      assert [c][1..] == [];
    }
  }

  /** An enum's type: the four bytes at offset 8, or, when they decode to nothing, those at offset 4. */
  function EnumType(data: seq<byte>, pos: nat): (t: string)
    requires pos + 12 <= |data|
    ensures forall c | c in t :: c as int < 128
    ensures t == [] || t[|t| - 1] != '\0'
    ensures !AllNul(AsciiIgnore(data[pos + 8..pos + 12])) ==> TrimmedOf(t, AsciiIgnore(data[pos + 8..pos + 12]))
    ensures AllNul(AsciiIgnore(data[pos + 8..pos + 12])) ==> TrimmedOf(t, AsciiIgnore(data[pos + 4..pos + 8]))
  {
    var at8, at4 := AsciiIgnore(data[pos + 8..pos + 12]), AsciiIgnore(data[pos + 4..pos + 8]);
    StripTrimmed(at8);
    StripTrimmed(at4);
    TrimmedEmpty(Utf16.StripTrailingNul(at8), at8);
    var t := Utf16.StripTrailingNul(AsciiIgnore(data[pos + 8..pos + 12]));
    if t != [] then t else Utf16.StripTrailingNul(AsciiIgnore(data[pos + 4..pos + 8]))
  }

  /** An enum type of four ASCII bytes, none of them NUL, reads as those four characters. */
  lemma EnumTypeAscii(data: seq<byte>, pos: nat)
    requires pos + 12 <= |data|
    requires forall k :: pos + 8 <= k < pos + 12 ==> 0 < data[k] < 128
    ensures EnumType(data, pos) == Chars(data[pos + 8..pos + 12])
  {
    var b := data[pos + 8..pos + 12];
    AsciiIgnoreAscii(b);
    var s := Chars(b);
    assert s[3] != '\0';
    assert !AllNul(s);
    var t := EnumType(data, pos);
    assert TrimmedOf(t, s);
    assert |t| == |s|;
  }

  /** An enum's value: the kept characters of the printable run after the padding, stripped. */
  function EnumValue(data: seq<byte>, pos: nat): (v: string)
    requires pos + 12 <= |data|
    ensures forall c | c in v :: EnumChar(c)
    ensures v == [] || (!IsSpace(v[0]) && !IsSpace(v[|v| - 1]))
    ensures var start := PadEnd(data, pos + 12);
            v == Strip(KeepEnumChars(Chars(data[start..PrintableEnd(data, start)])))
  {
    var start := PadEnd(data, pos + 12);
    Strip(KeepEnumChars(Chars(data[start..PrintableEnd(data, start)])))
  }

  /** Text made only of allowed characters passes the filter unchanged. */
  lemma {:induction false} KeepAllowed(s: string)
    requires forall k :: 0 <= k < |s| ==> EnumChar(s[k])
    ensures KeepEnumChars(s) == s
    decreases |s|
  {
    if s != [] {
      KeepAllowed(s[1..]);
      assert [s[0]] + s[1..] == s;
    }
  }

  /**
   * A value whose printable run is made of allowed characters and does not
   * start or end with a space reads as that run, character for byte.
   */
  lemma EnumValueClean(data: seq<byte>, pos: nat)
    requires pos + 12 <= |data|
    requires var start := PadEnd(data, pos + 12);
             var end := PrintableEnd(data, start);
             start < end &&
             (forall k :: start <= k < end ==> EnumChar(data[k] as char)) &&
             data[start] != 32 && data[end - 1] != 32
    ensures var start := PadEnd(data, pos + 12);
            EnumValue(data, pos) == Chars(data[start..PrintableEnd(data, start)])
  {
    hide *;
    var start := PadEnd(data, pos + 12);
    var end := PrintableEnd(data, start);
    CleanRun(data, start, end);
    CleanChars(data[start..end]);
  }

  /** The bytes of a clean run, on their own. */
  lemma CleanRun(data: seq<byte>, start: nat, end: nat)
    requires start < end <= |data|
    requires forall k :: start <= k < end ==> EnumChar(data[k] as char)
    requires data[start] != 32 && data[end - 1] != 32
    ensures var b := data[start..end];
            b != [] && (forall k :: 0 <= k < |b| ==> EnumChar(b[k] as char)) &&
            b[0] != 32 && b[|b| - 1] != 32
  {
  }

  /** Allowed bytes with no space at either end are kept and stripped as they are. */
  lemma CleanChars(b: seq<byte>)
    requires b != [] && forall k :: 0 <= k < |b| ==> EnumChar(b[k] as char)
    requires b[0] != 32 && b[|b| - 1] != 32
    ensures Strip(KeepEnumChars(Chars(b))) == Chars(b)
  {
    var s := Chars(b);
    assert forall k :: 0 <= k < |s| ==> EnumChar(s[k]) by {
      forall k | 0 <= k < |s| ensures EnumChar(s[k]) {
        assert s[k] == b[k] as char;
      }
    }
    assert s[0] == b[0] as char && s[|s| - 1] == b[|b| - 1] as char;
    KeepAllowed(s);
    StripUnpadded(s);
  }

  /** Text that neither starts nor ends with whitespace is its own `strip()`. */
  lemma StripUnpadded(s: string)
    requires s != [] && !IsSpace(s[0]) && !IsSpace(s[|s| - 1])
    ensures Strip(s) == s
  {
    assert StripStart(s) == s;
  }

  /**
   * An `enum` record: the result is `type.value`, or just `type` when the
   * value is empty; the scan resumes at the first marker at or after the end
   * of the value's printable run.
   */
  function EnumAt(data: seq<byte>, pos: nat, key: string): (s: Scan)
    requires pos + 12 <= |data|
    ensures pos + 12 <= s.next <= |data|
    ensures s.next < |data| ==> MarkerAt(data, s.next).Some?
    ensures PrintableEnd(data, PadEnd(data, pos + 12)) <= s.next
    ensures forall i :: PrintableEnd(data, PadEnd(data, pos + 12)) <= i < s.next ==> MarkerAt(data, i).None?
    ensures s.entry.Some? && s.entry.value.key == key && s.entry.value.name == Plain(Enum)
    ensures var t, v := EnumType(data, pos), EnumValue(data, pos);
            s.entry.value.value == Str(if v == [] then t else t + "." + v)
  {
    var end := PrintableEnd(data, PadEnd(data, pos + 12));
    var value := EnumValue(data, pos);
    var text := if value != [] then EnumType(data, pos) + "." + value else EnumType(data, pos);
    Scan(Some(Entry(key, Plain(Enum), Str(text))), FirstMarkerFrom(data, end))
  }

  /** `while enum_pos < L and data[enum_pos] in [0, 32]`: skip the padding. */
  method SkipPadding(data: seq<byte>, from: nat) returns (i: nat)
    requires from <= |data|
    ensures i == PadEnd(data, from)
  {
    i := from;
    while i < |data| && (data[i] == 0 || data[i] == 32)
      invariant from <= i <= |data|
      invariant PadEnd(data, i) == PadEnd(data, from)
      decreases |data| - i
    {
      i := i + 1;
    }
  }

  /** The loop over the value's printable run, keeping the enum characters. */
  method CollectValue(data: seq<byte>, start: nat) returns (value: string, i: nat)
    requires start <= |data|
    ensures i == PrintableEnd(data, start)
    ensures value == KeepEnumChars(Chars(data[start..i]))
  {
    hide KeepEnumChars, Chars;
    i := start;
    value := "";
    while i < |data| && Printable(data[i])
      invariant start <= i <= |data|
      invariant PrintableEnd(data, i) == PrintableEnd(data, start)
      invariant value == KeepEnumChars(Chars(data[start..i]))
      decreases |data| - i
    {
      var c := data[i] as char;
      assert data[start..i + 1] == data[start..i] + [data[i]];
      CharsSnoc(data[start..i], data[i]);
      KeepAppend(Chars(data[start..i]), c);
      if EnumChar(c) {
        value := value + [c];
      }
      i := i + 1;
    }
  }

  /** The `enum` branch: the type, the two loops over the value, and the nearest-marker search. */
  method EnumRecord(data: seq<byte>, pos: nat, key: string) returns (s: Scan)
    requires pos + 12 <= |data|
    ensures s == EnumAt(data, pos, key)
  {
    var enumType := Utf16.StripTrailingNul(AsciiIgnore(data[pos + 8..pos + 12]));
    if enumType == [] {
      enumType := Utf16.StripTrailingNul(AsciiIgnore(data[pos + 4..pos + 8]));
    }
    assert enumType == EnumType(data, pos);
    var start := SkipPadding(data, pos + 12);
    var value, end := CollectValue(data, start);
    value := Strip(value);
    assert value == EnumValue(data, pos);
    var text := if value != [] then enumType + "." + value else enumType;
    var next := NearestMarker(data, end);
    s := Scan(Some(Entry(key, Plain(Enum), Str(text))), next);
  }

  // ---------------------------------------------------------------------
  // Objc

  predicate IsLower(b: byte)
  {
    97 <= b <= 122
  }

  /** The bytes of a class name: ASCII letters, digits and `_`. */
  predicate IsWordByte(b: byte)
  {
    IsLower(b) || 65 <= b <= 90 || 48 <= b <= 57 || b == 95
  }

  /** The end of the run of name bytes that starts at `i`. */
  function WordEnd(data: seq<byte>, i: nat): (j: nat)
    requires i <= |data|
    ensures i <= j <= |data|
    ensures forall k :: i <= k < j ==> IsWordByte(data[k])
    ensures j == |data| || !IsWordByte(data[j])
    decreases |data| - i
  {
    if i < |data| && IsWordByte(data[i]) then WordEnd(data, i + 1) else i
  }

  /** A class name starts at `o`: a lower-case letter opening a run of more than three name bytes. */
  predicate ClassStart(data: seq<byte>, o: nat)
    requires o < |data|
  {
    IsLower(data[o]) && WordEnd(data, o) > o + 3
  }

  /**
   * The first class-name start at or after `o` and before `|data| - 10`
   * (the `while obj_pos < L - 10` bound).
   */
  function ClassFrom(data: seq<byte>, o: nat): (r: Option<nat>)
    ensures r.Some? ==> o <= r.value && r.value + 10 < |data| && ClassStart(data, r.value)
    ensures forall k :: o <= k && k + 10 < |data| && (r.None? || k < r.value) ==> !ClassStart(data, k)
    decreases |data| - o
  {
    if o + 10 >= |data| then None
    else if ClassStart(data, o) then Some(o)
    else ClassFrom(data, o + 1)
  }

  /** The name found at `o`, as text. */
  function ClassName(data: seq<byte>, o: nat): (name: string)
    requires o <= |data|
    ensures |name| == WordEnd(data, o) - o
    ensures forall c | c in name :: 'a' <= c <= 'z' || 'A' <= c <= 'Z' || '0' <= c <= '9' || c == '_'
  {
    Chars(data[o..WordEnd(data, o)])
  }

  /**
   * An `Objc` record: the first class name after the marker, the scan
   * resuming at its end; without one, `no_class_found` and a resume just
   * after the marker.
   */
  function ObjcAt(data: seq<byte>, pos: nat, key: string): (s: Scan)
    requires pos + 4 <= |data|
    ensures pos + 4 <= s.next <= |data|
    ensures s.entry.Some? && s.entry.value.key == key && s.entry.value.name == Plain(Objc)
    ensures s.next == pos + 4 ==>
              s.entry.value.value == NoClass && ClassFrom(data, pos + 4).None? &&
              forall k :: pos + 4 <= k && k + 10 < |data| ==> !ClassStart(data, k)
    ensures s.next > pos + 4 ==>
              s.entry.value.value.Str? &&
              (var name := s.entry.value.value.text;
               |name| > 3 && 'a' <= name[0] <= 'z' && pos + 4 <= s.next - |name| &&
               ClassFrom(data, pos + 4) == Some(s.next - |name|) &&
               s.next == WordEnd(data, s.next - |name|) &&
               (s.next == |data| || !IsWordByte(data[s.next])) &&
               name == Chars(data[s.next - |name|..s.next]))
  {
    match ClassFrom(data, pos + 4)
    case Some(o) => Scan(Some(Entry(key, Plain(Objc), Str(ClassName(data, o)))), WordEnd(data, o))
    case None => Scan(Some(Entry(key, Plain(Objc), NoClass)), pos + 4)
  }

  /** The inner loop of the `Objc` branch: the name bytes from `o` on, as text. */
  method ReadWord(data: seq<byte>, o: nat) returns (name: string, t: nat)
    requires o <= |data|
    ensures t == WordEnd(data, o) && name == ClassName(data, o)
  {
    hide Chars;
    name, t := "", o;
    while t < |data| && IsWordByte(data[t])
      invariant o <= t <= |data|
      invariant WordEnd(data, t) == WordEnd(data, o)
      invariant name == Chars(data[o..t])
      decreases |data| - t
    {
      assert data[o..t + 1] == data[o..t] + [data[t]];
      CharsSnoc(data[o..t], data[t]);
      name := name + [data[t] as char];
      t := t + 1;
    }
  }

  /** The `Objc` branch: the search loop over start positions and the inner loop collecting the name. */
  method ObjcRecord(data: seq<byte>, pos: nat, key: string) returns (s: Scan)
    requires pos + 4 <= |data|
    ensures s == ObjcAt(data, pos, key)
  {
    var o := pos + 4;
    while o + 10 < |data|
      invariant pos + 4 <= o
      invariant ClassFrom(data, o) == ClassFrom(data, pos + 4)
      decreases |data| - o
    {
      if IsLower(data[o]) {
        var name, t := ReadWord(data, o);
        if |name| > 3 {
          return Scan(Some(Entry(key, Plain(Objc), Str(name))), t);
        }
      }
      o := o + 1;
    }
    return Scan(Some(Entry(key, Plain(Objc), NoClass)), pos + 4);
  }

  // ---------------------------------------------------------------------
  // The scan

  /** The branch for the marker `kind` found at `pos`, whose key is `key`. */
  function RecordAt(data: seq<byte>, pos: nat, kind: Kind, key: string): (s: Scan)
    requires pos + 4 < |data|
    ensures pos < s.next <= |data|
    ensures s.entry.Some? ==>
              s.entry.value.key == key && Marker(s.entry.value.name) == kind
    ensures s.entry.None? <==> (Fixed(kind) && pos + Width(kind) > |data|) || (kind == Enum && pos + 12 > |data|)
    ensures s.entry.None? ==> s == Unmatched(pos)
  {
    match kind
    case Enum => if pos + 12 <= |data| then EnumAt(data, pos, key) else Unmatched(pos)
    case Objc => ObjcAt(data, pos, key)
    case VlLs => DumpAt(data, pos, key, VlLs)
    case _ =>
      match FixedAt(data, pos, kind, key)
      case Some(s) => s
      case None => Unmatched(pos)
  }

  /** One pass of the `while pos < L - 4` loop at `pos`. */
  function StepAt(data: seq<byte>, pos: nat): (s: Scan)
    requires pos + 4 < |data|
    ensures pos < s.next <= |data|
    ensures s.entry.Some? ==> MarkerAt(data, pos).Some? && s.entry.value.key == KeyBefore(data, pos)
  {
    match MarkerAt(data, pos)
    case None => Unmatched(pos)
    case Some(kind) => RecordAt(data, pos, kind, KeyBefore(data, pos))
  }

  /** The results of the scan from `pos` on, in the order they are appended. */
  function ScanFrom(data: seq<byte>, pos: nat): seq<Entry>
    requires pos <= |data|
    decreases |data| - pos
  {
    if pos + 4 < |data| then
      var s := StepAt(data, pos);
      AsSeq(s.entry) + ScanFrom(data, s.next)
    else []
  }

  /** `parse_brush_parameters(data)`: nothing without an `Objc` marker, else the scan from the first one. */
  function Parse(data: seq<byte>): seq<Entry>
  {
    match FindFrom(data, Tag(Objc), 0)
    case None => []
    case Some(first) => ScanFrom(data, first)
  }

  /** One pass of the loop: the marker test, the key, and the branch for the marker found. */
  method Step(data: seq<byte>, pos: nat) returns (s: Scan)
    requires pos + 4 < |data|
    ensures s == StepAt(data, pos)
  {
    var marker := MatchMarker(data, pos);
    if marker.None? {
      return Unmatched(pos);
    }
    var key := FindPrintableKeyBefore(data, pos);
    s := Record(data, pos, marker.value, key);
  }

  /** The branch for the marker found. */
  method Record(data: seq<byte>, pos: nat, kind: Kind, key: string) returns (s: Scan)
    requires pos + 4 < |data|
    ensures s == RecordAt(data, pos, kind, key)
  {
    match kind
    case Enum =>
      if pos + 12 <= |data| {
        s := EnumRecord(data, pos, key);
      } else {
        s := Unmatched(pos);
      }
    case Objc =>
      s := ObjcRecord(data, pos, key);
    case VlLs =>
      s := DumpRecord(data, pos, key, VlLs);
    case _ =>
      var fixed := FixedAt(data, pos, kind, key);
      s := if fixed.Some? then fixed.value else Unmatched(pos);
  }

  /** `parse_brush_parameters`: the results, in scan order. */
  method ParseBrushParameters(data: seq<byte>) returns (results: seq<Entry>)
    ensures results == Parse(data)
  {
    hide StepAt, ScanFrom;
    results := [];
    var first := FindFrom(data, Tag(Objc), 0);
    if first.None? {
      return;
    }
    var pos := first.value;
    assert ScanFrom(data, first.value) == results + ScanFrom(data, pos);
    while pos + 4 < |data|
      invariant pos <= |data|
      invariant ScanFrom(data, first.value) == results + ScanFrom(data, pos)
      decreases |data| - pos
    {
      var s := Step(data, pos);
      ScanAppend(data, first.value, pos, results, s);
      if s.entry.Some? {
        results := results + [s.entry.value];
      }
      pos := s.next;
    }
    ScanDone(data, pos);
  }

  /** Fewer than five bytes left: the scan yields nothing more. */
  lemma ScanDone(data: seq<byte>, pos: nat)
    requires pos <= |data| && pos + 4 >= |data|
    ensures ScanFrom(data, pos) == []
  {
  }

  /** One pass of the loop appends the pass's result, if any, to what the scan has yielded so far. */
  lemma ScanAppend(data: seq<byte>, start: nat, pos: nat, results: seq<Entry>, s: Scan)
    requires start <= |data| && pos + 4 < |data| && s == StepAt(data, pos)
    requires ScanFrom(data, start) == results + ScanFrom(data, pos)
    ensures ScanFrom(data, start) == (if s.entry.Some? then results + [s.entry.value] else results) + ScanFrom(data, s.next)
  {
    hide StepAt;
    var rest := ScanFrom(data, s.next);
    assert ScanFrom(data, pos) == AsSeq(s.entry) + rest;
    if s.entry.Some? {
      assert results + ([s.entry.value] + rest) == (results + [s.entry.value]) + rest;
    } else {
      assert AsSeq(s.entry) + rest == rest;
    }
  }

  // ---------------------------------------------------------------------
  // Properties

  /** Data without an `Objc` marker yields no results. */
  lemma NoObjcNoResults(data: seq<byte>)
    requires forall i :: !Occurs(data, Tag(Objc), i)
    ensures Parse(data) == []
  {
  }

  /** When an `Objc` marker starts before the last four bytes, the first result is an `Objc` record. */
  lemma FirstResultIsObjc(data: seq<byte>, i: nat)
    requires Occurs(data, Tag(Objc), i) && i + 4 < |data|
    ensures Parse(data) != [] && Parse(data)[0].name == Plain(Objc)
  {
    hide StepAt;
    var first := FindFrom(data, Tag(Objc), 0).value;
    assert first <= i;
    MarkerUnique(data, first, Objc);
    ObjcStep(data, first);
    ScanHead(data, first);
  }

  /** At an `Objc` marker the pass yields an `Objc` result. */
  lemma ObjcStep(data: seq<byte>, pos: nat)
    requires pos + 4 < |data| && MarkerAt(data, pos) == Some(Objc)
    ensures StepAt(data, pos).entry.Some? && StepAt(data, pos).entry.value.name == Plain(Objc)
  {
    StepRecord(data, pos, Objc);
    hide EnumAt, ObjcAt, DumpAt, FixedAt, StepAt, KeyBefore, MarkerAt;
    assert RecordAt(data, pos, Objc, KeyBefore(data, pos)) == ObjcAt(data, pos, KeyBefore(data, pos));
  }

  /** At a marker, the pass is the record for that marker, with the key before it. */
  lemma StepRecord(data: seq<byte>, pos: nat, kind: Kind)
    requires pos + 4 < |data| && MarkerAt(data, pos) == Some(kind)
    ensures StepAt(data, pos) == RecordAt(data, pos, kind, KeyBefore(data, pos))
  {
    hide RecordAt, KeyBefore;
  }

  /** A pass that yields a result puts it at the head of the scan. */
  lemma ScanHead(data: seq<byte>, pos: nat)
    requires pos + 4 < |data| && StepAt(data, pos).entry.Some?
    ensures ScanFrom(data, pos) != [] && ScanFrom(data, pos)[0] == StepAt(data, pos).entry.value
  {
    hide StepAt;
    var s := StepAt(data, pos);
    assert ScanFrom(data, pos) == [s.entry.value] + ScanFrom(data, s.next);
  }

  /** Every pass moves on by at least one byte, so the scan yields at most one result per byte. */
  lemma {:induction false} ScanLength(data: seq<byte>, pos: nat)
    requires pos <= |data|
    ensures |ScanFrom(data, pos)| <= |data| - pos
    decreases |data| - pos
  {
    hide StepAt;
    if pos + 4 < |data| {
      ScanLength(data, StepAt(data, pos).next);
    }
  }

  /** Bytes where no marker starts yield nothing: the scan from any of them is the scan from the first marker. */
  lemma {:induction false} UnmatchedRun(data: seq<byte>, p: nat, q: nat)
    requires p <= q <= |data|
    requires forall i :: p <= i < q ==> MarkerAt(data, i).None?
    ensures ScanFrom(data, p) == ScanFrom(data, q)
    decreases q - p
  {
    hide RecordAt;
    if p < q && p + 4 < |data| {
      assert StepAt(data, p) == Unmatched(p);
      assert ScanFrom(data, p) == [] + ScanFrom(data, p + 1);
      UnmatchedRun(data, p + 1, q);
    }
  }

  /** Every result has a key of at most 50 printable characters, with no whitespace at either end. */
  lemma {:induction false} EntriesWellFormed(data: seq<byte>, pos: nat)
    requires pos <= |data|
    ensures forall e | e in ScanFrom(data, pos) :: KeyShaped(e.key)
    decreases |data| - pos
  {
    hide StepAt, KeyShaped;
    if pos + 4 < |data| {
      var s := StepAt(data, pos);
      EntriesWellFormed(data, s.next);
      KeyShape(data, pos);
      assert ScanFrom(data, pos) == AsSeq(s.entry) + ScanFrom(data, s.next);
    }
  }
}
