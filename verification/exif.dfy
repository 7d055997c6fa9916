/** The Exif orientation reader of `getOrientation`: a scan over the marker
    segments of a JPEG stream (Annex B of ITU-T T.81) that looks for the APP1
    segment, takes the byte order and directory offset from where it expects
    the TIFF header, follows that offset to what it takes for the first
    image file directory (section 2 of TIFF 6.0) and returns the value of
    the Orientation tag (section 8 of TIFF 6.0).  Every failed read, like the `try/catch` around
    the source, collapses to orientation 1.

    The distance from the APP1 length field to the byte-order mark is a
    parameter `gap`: the source uses 6 (`GetOrientation`), the layout of an
    Exif APP1 segment ("Exif", two NUL octets, TIFF header) needs 8
    (`GetOrientationFixed`). */
module Exif {
  import opened Bytes

  const SOI: nat := 0xFFD8
  const APP1: nat := 0xFFE1
  /** "Exif" read as a big-endian 32-bit value. */
  const EXIF_ID: nat := 0x4578_6966
  /** "II", the little-endian byte-order mark. */
  const INTEL: nat := 0x4949
  const ORIENTATION_TAG: nat := 0x0112
  const ENTRY_SIZE: nat := 12
  /** Position of the value field inside a directory entry. */
  const VALUE_FIELD: nat := 8
  const DEFAULT_ORIENTATION: nat := 1

  /** `offset += 6` taken from the APP1 length field, as the source does. */
  const WRITTEN_GAP: nat := 6
  /** Length field (2) + "Exif" (4) + two NUL octets: where the TIFF header starts. */
  const STANDARD_GAP: nat := 8

  // ---------------------------------------------------------------------------
  // Directory entries

  /** The tag of directory entry `k` of the list starting at `entries`. */
  function EntryTag(buf: seq<byte>, entries: nat, k: nat, little: bool): Option<nat>
  {
    ReadU16(buf, entries + ENTRY_SIZE * k, little)
  }

  /** The 16-bit value field of directory entry `k`. */
  function EntryValue(buf: seq<byte>, entries: nat, k: nat, little: bool): Option<nat>
  {
    ReadU16(buf, entries + ENTRY_SIZE * k + VALUE_FIELD, little)
  }

  /** Entries `0 .. k-1` can all be read and none of them is the Orientation tag. */
  predicate NoMatchBefore(buf: seq<byte>, entries: nat, k: nat, little: bool)
  {
    forall j :: 0 <= j < k ==>
      EntryTag(buf, entries, j, little).Some? && EntryTag(buf, entries, j, little) != Some(ORIENTATION_TAG)
  }

  /** Entry `k` is the first entry carrying the Orientation tag. */
  predicate FirstMatchAt(buf: seq<byte>, entries: nat, k: nat, little: bool)
  {
    NoMatchBefore(buf, entries, k, little) && EntryTag(buf, entries, k, little) == Some(ORIENTATION_TAG)
  }

  /** Entry `k` is where the search faults: all earlier entries are readable
      non-matches, and either its tag or (being a match) its value cannot be read. */
  predicate FaultAt(buf: seq<byte>, entries: nat, k: nat, little: bool)
  {
    && NoMatchBefore(buf, entries, k, little)
    && (|| EntryTag(buf, entries, k, little).None?
        || (EntryTag(buf, entries, k, little) == Some(ORIENTATION_TAG)
            && EntryValue(buf, entries, k, little).None?))
  }

  datatype TagSearch = Found(value: nat) | Absent | Truncated

  /** The `for` loop over the `count` entries, resumed at entry `i`. */
  function FindTagFrom(buf: seq<byte>, entries: nat, count: nat, little: bool, i: nat): (r: TagSearch)
    requires i <= count
    ensures r.Found? ==> r.value < U16_LIMIT
    decreases count - i
  {
    if i == count then Absent
    else match EntryTag(buf, entries, i, little)
      case None => Truncated
      case Some(tag) =>
        if tag == ORIENTATION_TAG then
          match EntryValue(buf, entries, i, little)
          case None => Truncated
          case Some(v) => Found(v)
        else
          FindTagFrom(buf, entries, count, little, i + 1)
  }

  /** The `for` loop over all `count` entries. */
  function FindTag(buf: seq<byte>, entries: nat, count: nat, little: bool): (r: TagSearch)
    ensures r.Found? ==> r.value < U16_LIMIT
  {
    FindTagFrom(buf, entries, count, little, 0)
  }

  /** Resumed after `i` non-matching entries, the search finds the first later
      match, faults at the first later unreadable entry, and reports `Absent`
      exactly when all entries were read and none matched. */
  lemma {:induction false} FindTagFromMeaning(buf: seq<byte>, entries: nat, count: nat, little: bool, i: nat)
    requires i <= count
    requires NoMatchBefore(buf, entries, i, little)
    ensures var r := FindTagFrom(buf, entries, count, little, i);
      && (r.Found? ==>
            exists k :: i <= k < count && FirstMatchAt(buf, entries, k, little)
                        && EntryValue(buf, entries, k, little) == Some(r.value))
      && (r.Absent? <==> NoMatchBefore(buf, entries, count, little))
      && (r.Truncated? ==> exists k :: i <= k < count && FaultAt(buf, entries, k, little))
    decreases count - i
  {
    var r := FindTagFrom(buf, entries, count, little, i);
    if i < count {
      match EntryTag(buf, entries, i, little)
      case None =>
        assert FaultAt(buf, entries, i, little);
        assert !NoMatchBefore(buf, entries, count, little);
      case Some(tag) =>
        if tag == ORIENTATION_TAG {
          assert FirstMatchAt(buf, entries, i, little);
          assert !NoMatchBefore(buf, entries, count, little);
          if EntryValue(buf, entries, i, little).None? {
            assert FaultAt(buf, entries, i, little);
          }
        } else {
          assert NoMatchBefore(buf, entries, i + 1, little);
          FindTagFromMeaning(buf, entries, count, little, i + 1);
        }
    }
  }

  /** The first of the `count` entries whose tag is Orientation decides the
      search: its raw value when readable, a fault when it or an earlier tag
      cannot be read, and `Absent` exactly when every entry was read and none
      matched. */
  lemma FindTagMeaning(buf: seq<byte>, entries: nat, count: nat, little: bool)
    ensures var r := FindTag(buf, entries, count, little);
      && (r.Found? <==>
            exists k :: 0 <= k < count && FirstMatchAt(buf, entries, k, little)
                        && EntryValue(buf, entries, k, little).Some?)
      && (r.Found? ==>
            exists k :: 0 <= k < count && FirstMatchAt(buf, entries, k, little)
                        && EntryValue(buf, entries, k, little) == Some(r.value))
      && (r.Absent? <==> NoMatchBefore(buf, entries, count, little))
      && (r.Truncated? <==> exists k :: 0 <= k < count && FaultAt(buf, entries, k, little))
  {
    FindTagFromMeaning(buf, entries, count, little, 0);
    FindTagOutcomesExclusive(buf, entries, count, little);
  }

  /** A search that finds a readable match cannot also fault, and the other way round. */
  lemma FindTagOutcomesExclusive(buf: seq<byte>, entries: nat, count: nat, little: bool)
    ensures forall k, k' ::
      (0 <= k < count && 0 <= k' < count && FirstMatchAt(buf, entries, k, little)
       && EntryValue(buf, entries, k, little).Some?) ==> !FaultAt(buf, entries, k', little)
  {
    forall k, k' | 0 <= k < count && 0 <= k' < count && FirstMatchAt(buf, entries, k, little)
      && EntryValue(buf, entries, k, little).Some?
      ensures !FaultAt(buf, entries, k', little)
    {
      if FaultAt(buf, entries, k', little) {
        FirstIsUnique(buf, entries, k, k', little);
      }
    }
  }

  /** An entry that is the first match and an entry where the search faults
      can only be the same entry, and then the value is unreadable. */
  lemma FirstIsUnique(buf: seq<byte>, entries: nat, k: nat, k': nat, little: bool)
    requires FirstMatchAt(buf, entries, k, little)
    requires FaultAt(buf, entries, k', little)
    ensures k == k' && EntryValue(buf, entries, k, little).None?
  {
    assert k < k' ==> EntryTag(buf, entries, k, little).Some?
                      && EntryTag(buf, entries, k, little) != Some(ORIENTATION_TAG);
    assert k' < k ==> EntryTag(buf, entries, k', little).Some?
                      && EntryTag(buf, entries, k', little) != Some(ORIENTATION_TAG);
  }

  // ---------------------------------------------------------------------------
  // Segment scan

  /** What one pass of the `while` body does: return a code, or carry on at a new offset. */
  datatype Pass = Stop(code: nat) | Next(offset: nat)

  /** The APP1 branch, entered with `lengthField` on the segment's length field. */
  function App1Step(buf: seq<byte>, lengthField: nat, gap: nat): (s: Pass)
    ensures s.Next? ==> s.offset >= lengthField + gap + 2
    ensures s.Stop? ==> s.code < U16_LIMIT
    ensures s.Stop? && s.code != DEFAULT_ORIENTATION ==> ReadU32(buf, lengthField + 2, false) == Some(EXIF_ID)
  {
    match ReadU32(buf, lengthField + 2, false)
    case None => Stop(DEFAULT_ORIENTATION)
    case Some(id) =>
      if id != EXIF_ID then Stop(DEFAULT_ORIENTATION)
      else
        var header := lengthField + gap;
        match ReadU16(buf, header, false)
        case None => Stop(DEFAULT_ORIENTATION)
        case Some(order) =>
          var little := order == INTEL;
          match ReadU32(buf, header + 4, little)
          case None => Stop(DEFAULT_ORIENTATION)
          case Some(ifdOffset) =>
            var ifd := header + ifdOffset;
            match ReadU16(buf, ifd, little)
            case None => Stop(DEFAULT_ORIENTATION)
            case Some(count) =>
              var entries := ifd + 2;
              match FindTag(buf, entries, count, little)
              case Found(v) => Stop(v)
              case Truncated => Stop(DEFAULT_ORIENTATION)
              case Absent => Next(entries)
  }

  /** One pass of the `while` body at `offset`. Only a marker whose high octet
      is 0xFF (`marker & 0xFF00` is 0xFF00) lets the scan go on. */
  function ScanStep(buf: seq<byte>, offset: nat, gap: nat): (s: Pass)
    ensures s.Next? ==> s.offset >= offset + 2
    ensures s.Stop? ==> s.code < U16_LIMIT
    ensures s.Next? ==> offset + 2 <= |buf| && buf[offset] == 0xFF
  {
    match ReadU16(buf, offset, false)
    case None => Stop(DEFAULT_ORIENTATION)
    case Some(marker) =>
      var lengthField := offset + 2;
      if marker == APP1 then App1Step(buf, lengthField, gap)
      else if marker / 0x100 != 0xFF then Stop(DEFAULT_ORIENTATION)
      else
        match ReadU16(buf, lengthField, false)
        case None => Stop(DEFAULT_ORIENTATION)
        case Some(length) => Next(lengthField + length)
  }

  /** The `while (offset < length)` loop, from `offset` on. */
  function Scan(buf: seq<byte>, offset: nat, gap: nat): (r: nat)
    ensures r < U16_LIMIT
    decreases |buf| - offset
  {
    if offset >= |buf| then DEFAULT_ORIENTATION
    else match ScanStep(buf, offset, gap)
      case Stop(code) => code
      case Next(next) => Scan(buf, next, gap)
  }

  predicate StartsWithSoi(buf: seq<byte>)
  {
    ReadU16(buf, 0, false) == Some(SOI)
  }

  /** The reader with a given header gap. */
  function Orientation(buf: seq<byte>, gap: nat): (r: nat)
    ensures r < U16_LIMIT
    ensures !StartsWithSoi(buf) ==> r == DEFAULT_ORIENTATION
    ensures r != DEFAULT_ORIENTATION ==> |buf| >= 2 && buf[0] == 0xFF && buf[1] == 0xD8
  {
    if !StartsWithSoi(buf) then DEFAULT_ORIENTATION else Scan(buf, 2, gap)
  }

  /** `getOrientation` as written. */
  function GetOrientation(buf: seq<byte>): (r: nat)
    ensures r < U16_LIMIT
    ensures !StartsWithSoi(buf) ==> r == DEFAULT_ORIENTATION
    ensures |buf| < 2 ==> r == DEFAULT_ORIENTATION
  {
    Orientation(buf, WRITTEN_GAP)
  }

  /** The reader with the byte-order mark taken where an Exif APP1 segment puts it. */
  function GetOrientationFixed(buf: seq<byte>): (r: nat)
    ensures r < U16_LIMIT
    ensures !StartsWithSoi(buf) ==> r == DEFAULT_ORIENTATION
  {
    Orientation(buf, STANDARD_GAP)
  }

  // ---------------------------------------------------------------------------
  // Properties of the scan

  /** A marker whose high octet is not 0xFF ends the scan with 1. */
  lemma NonMarkerStops(buf: seq<byte>, offset: nat, gap: nat)
    requires offset + 2 <= |buf| && buf[offset] != 0xFF
    ensures Scan(buf, offset, gap) == DEFAULT_ORIENTATION
  {
  }

  /** Any other marker than APP1 is skipped by its big-endian length, which
      counts the length field itself but not the marker. */
  lemma SkipsSegment(buf: seq<byte>, offset: nat, length: nat, gap: nat)
    requires offset + 2 <= |buf| && buf[offset] == 0xFF && buf[offset + 1] != 0xE1
    requires ReadU16(buf, offset + 2, false) == Some(length)
    ensures Scan(buf, offset, gap) == Scan(buf, offset + 2 + length, gap)
  {
  }

  /** An APP1 segment without the "Exif" identifier ends the scan with 1. */
  lemma App1WithoutExifStops(buf: seq<byte>, offset: nat, gap: nat)
    requires ReadU16(buf, offset, false) == Some(APP1)
    requires ReadU32(buf, offset + 4, false) != Some(EXIF_ID)
    ensures Scan(buf, offset, gap) == DEFAULT_ORIENTATION
  {
  }

  /** Inside a well-formed APP1 segment the byte order is little-endian exactly
      when the big-endian value at the header is "II"; the directory lies at
      the header plus the 32-bit offset read 4 octets after it in that order;
      and the result is the first Orientation entry's value, 1 when the entry
      list faults, and otherwise the scan resumes just after the count field. */
  lemma App1Outcome(buf: seq<byte>, offset: nat, gap: nat, little: bool, ifdOffset: nat, count: nat)
    requires ReadU16(buf, offset, false) == Some(APP1)
    requires ReadU32(buf, offset + 4, false) == Some(EXIF_ID)
    requires ReadU16(buf, offset + 2 + gap, false).Some?
    requires little <==> ReadU16(buf, offset + 2 + gap, false) == Some(INTEL)
    requires ReadU32(buf, offset + 2 + gap + 4, little) == Some(ifdOffset)
    requires ReadU16(buf, offset + 2 + gap + ifdOffset, little) == Some(count)
    ensures var entries := offset + 2 + gap + ifdOffset + 2;
            match FindTag(buf, entries, count, little)
            case Found(v) => Scan(buf, offset, gap) == v
            case Truncated => Scan(buf, offset, gap) == DEFAULT_ORIENTATION
            case Absent => Scan(buf, offset, gap) == Scan(buf, entries, gap)
  {
  }

  // ---------------------------------------------------------------------------
  // Cutting the buffer short

  lemma ReadsOfCut(buf: seq<byte>, c: nat, pos: nat, little: bool)
    requires c <= |buf|
    ensures ReadU16(buf[..c], pos, little) == (if pos + 2 <= c then ReadU16(buf, pos, little) else None)
    ensures ReadU32(buf[..c], pos, little) == (if pos + 4 <= c then ReadU32(buf, pos, little) else None)
  {
  }

  /** On a cut buffer the entry search sees the same entries or faults. */
  lemma {:induction false} FindTagFromOfCut(buf: seq<byte>, c: nat, entries: nat, count: nat, little: bool, i: nat)
    requires c <= |buf| && i <= count
    ensures var r := FindTagFrom(buf[..c], entries, count, little, i);
            r == FindTagFrom(buf, entries, count, little, i) || r == Truncated
    decreases count - i
  {
    if i < count {
      ReadsOfCut(buf, c, entries + ENTRY_SIZE * i, little);
      ReadsOfCut(buf, c, entries + ENTRY_SIZE * i + VALUE_FIELD, little);
      FindTagFromOfCut(buf, c, entries, count, little, i + 1);
    }
  }

  /** On a cut buffer the APP1 branch does what it does on the whole buffer,
      or stops with the default. */
  lemma App1StepOfCut(buf: seq<byte>, c: nat, lengthField: nat, gap: nat)
    requires c <= |buf|
    ensures var s := App1Step(buf[..c], lengthField, gap);
            s == App1Step(buf, lengthField, gap) || s == Stop(DEFAULT_ORIENTATION)
  {
    var cut := buf[..c];
    var header := lengthField + gap;
    ReadsOfCut(buf, c, lengthField + 2, false);
    ReadsOfCut(buf, c, header, false);
    if ReadU16(cut, header, false).Some? {
      var little := ReadU16(cut, header, false).value == INTEL;
      ReadsOfCut(buf, c, header + 4, little);
      if ReadU32(cut, header + 4, little).Some? {
        var ifd := header + ReadU32(cut, header + 4, little).value;
        ReadsOfCut(buf, c, ifd, little);
        if ReadU16(cut, ifd, little).Some? {
          FindTagFromOfCut(buf, c, ifd + 2, ReadU16(cut, ifd, little).value, little, 0);
        }
      }
    }
  }

  /** On a cut buffer one pass of the loop does what it does on the whole
      buffer, or stops with the default. */
  lemma ScanStepOfCut(buf: seq<byte>, c: nat, offset: nat, gap: nat)
    requires c <= |buf|
    ensures var s := ScanStep(buf[..c], offset, gap);
            s == ScanStep(buf, offset, gap) || s == Stop(DEFAULT_ORIENTATION)
  {
    ReadsOfCut(buf, c, offset, false);
    ReadsOfCut(buf, c, offset + 2, false);
    App1StepOfCut(buf, c, offset + 2, gap);
  }

  /** Cutting the buffer short can only turn the scan's result into the default. */
  lemma {:induction false} ScanOfCut(buf: seq<byte>, c: nat, offset: nat, gap: nat)
    requires c <= |buf|
    ensures Scan(buf[..c], offset, gap) in {Scan(buf, offset, gap), DEFAULT_ORIENTATION}
    decreases c - offset
  {
    if offset < c {
      ScanStepOfCut(buf, c, offset, gap);
      match ScanStep(buf[..c], offset, gap)
      case Stop(_) =>
      case Next(next) =>
        ScanOfCut(buf, c, next, gap);
    }
  }

  /** A truncated stream never yields an orientation the whole stream does not:
      it gives the same result or 1. */
  lemma OrientationOfCut(buf: seq<byte>, c: nat, gap: nat)
    requires c <= |buf|
    ensures Orientation(buf[..c], gap) in {Orientation(buf, gap), DEFAULT_ORIENTATION}
  {
    ReadsOfCut(buf, c, 0, false);
    ScanOfCut(buf, c, 2, gap);
  }

  // ---------------------------------------------------------------------------
  // The loop of the source, statement by statement

  /** The source's `for` loop over the directory entries; a `return` from
      inside the loop is `Found` or (by the `catch`) `Truncated`. */
  method SearchEntries(buf: seq<byte>, entries: nat, count: nat, little: bool) returns (r: TagSearch)
    ensures r == FindTag(buf, entries, count, little)
  {
    var i: nat := 0;
    while i < count
      invariant i <= count
      invariant NoMatchBefore(buf, entries, i, little)
      invariant FindTagFrom(buf, entries, count, little, i) == FindTag(buf, entries, count, little)
    {
      var tag := ReadU16(buf, entries + ENTRY_SIZE * i, little);
      if tag.None? {
        return Truncated;
      }
      if tag.value == ORIENTATION_TAG {
        var value := ReadU16(buf, entries + ENTRY_SIZE * i + VALUE_FIELD, little);
        if value.None? {
          return Truncated;
        }
        return Found(value.value);
      }
      i := i + 1;
    }
    return Absent;
  }

  /** The APP1 branch of the source's loop body, entered with `lengthField`
      on the segment's length field; it does what `App1Step` says. */
  method ReadApp1(buf: seq<byte>, lengthField: nat) returns (s: Pass)
    ensures s == App1Step(buf, lengthField, WRITTEN_GAP)
  {
    var offset := lengthField;
    var id := ReadU32(buf, offset + 2, false);
    if id != Some(EXIF_ID) {
      return Stop(DEFAULT_ORIENTATION);
    }
    offset := offset + 6;
    var order := ReadU16(buf, offset, false);
    if order.None? {
      return Stop(DEFAULT_ORIENTATION);
    }
    var little := order.value == INTEL;
    var ifdOffset := ReadU32(buf, offset + 4, little);
    if ifdOffset.None? {
      return Stop(DEFAULT_ORIENTATION);
    }
    offset := offset + ifdOffset.value;
    var tags := ReadU16(buf, offset, little);
    if tags.None? {
      return Stop(DEFAULT_ORIENTATION);
    }
    offset := offset + 2;
    var search := SearchEntries(buf, offset, tags.value, little);
    match search {
      case Found(v) => return Stop(v);
      case Truncated => return Stop(DEFAULT_ORIENTATION);
      case Absent => return Next(offset);
    }
  }

  /** `getOrientation` written as the source's loops; it computes `GetOrientation`. */
  method ReadOrientation(buf: seq<byte>) returns (r: nat)
    ensures r == GetOrientation(buf)
  {
    if ReadU16(buf, 0, false) != Some(SOI) {
      return DEFAULT_ORIENTATION;
    }
    var length := |buf|;
    var offset: nat := 2;
    while offset < length
      invariant Scan(buf, offset, WRITTEN_GAP) == GetOrientation(buf)
      decreases length - offset
    {
      ghost var segment := offset;
      var marker := ReadU16(buf, offset, false);
      if marker.None? {
        return DEFAULT_ORIENTATION;
      }
      offset := offset + 2;
      if marker.value == APP1 {
        var step := ReadApp1(buf, offset);
        match step {
          case Stop(code) => return code;
          case Next(next) => offset := next;
        }
      } else if marker.value / 0x100 != 0xFF {
        assert Scan(buf, segment, WRITTEN_GAP) == DEFAULT_ORIENTATION;
        break;
      } else {
        var skip := ReadU16(buf, offset, false);
        if skip.None? {
          return DEFAULT_ORIENTATION;
        }
        offset := offset + skip.value;
      }
    }
    return DEFAULT_ORIENTATION;
  }
}
