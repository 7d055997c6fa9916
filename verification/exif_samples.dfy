/** Synthetic JPEG streams built from the formats the reader follows, and what
    the reader makes of them: the stored value for the layout each reader
    expects, and the default 1 for a missing tag, a cut-off directory or (for
    the reader as written) a standard Exif APP1 segment. */
module ExifSamples {
  import opened Bytes
  import opened Exif

  // ---------------------------------------------------------------------------
  // Building streams

  /** A marker segment other than APP1: 0xFF, the marker octet, a big-endian
      length that counts itself, and the payload. */
  datatype Segment = Segment(kind: byte, payload: seq<byte>)

  predicate Skippable(s: Segment)
  {
    s.kind != 0xE1 && |s.payload| + 2 < U16_LIMIT
  }

  predicate AllSkippable(ss: seq<Segment>)
  {
    forall i :: 0 <= i < |ss| ==> Skippable(ss[i])
  }

  function SegmentBytes(s: Segment): (b: seq<byte>)
    requires Skippable(s)
    ensures |b| == |s.payload| + 4
    ensures b[0] == 0xFF && b[1] == s.kind
    ensures ReadU16(b, 2, false) == Some(|s.payload| + 2)
  {
    var head := [0xFF, s.kind];
    var length := EncodeU16(|s.payload| + 2, false);
    ReadsOfAppend(head, length, 0, false);
    ReadsOfAppend(head + length, s.payload, 2, false);
    head + length + s.payload
  }

  function SegmentsBytes(ss: seq<Segment>): seq<byte>
    requires AllSkippable(ss)
  {
    if ss == [] then [] else SegmentBytes(ss[0]) + SegmentsBytes(ss[1..])
  }

  function Zeros(n: nat): (z: seq<byte>)
    ensures |z| == n
  {
    seq(n, _ => 0)
  }

  const TIFF_SIZE: nat := 26

  /** "II" (Intel, little-endian) or "MM" (Motorola, big-endian). */
  function ByteOrderMark(little: bool): nat
  {
    if little then INTEL else 0x4D4D
  }

  /** The 8-octet TIFF header: byte-order mark, 42, and the offset 8 of the
      first image file directory (section 2 of TIFF 6.0). */
  function TiffHeader(little: bool): (h: seq<byte>)
    ensures |h| == 8
    ensures ReadU16(h, 0, false) == Some(ByteOrderMark(little))
    ensures ReadU32(h, 4, little) == Some(8)
  {
    var mark := EncodeU16(ByteOrderMark(little), false);
    var front := mark + EncodeU16(42, little);
    ReadsOfAppend(mark, EncodeU16(42, little), 0, false);
    ReadsOfAppend(front, EncodeU32(8, little), 0, false);
    ReadsOfAppend(front, EncodeU32(8, little), 0, little);
    front + EncodeU32(8, little)
  }

  /** One 12-octet directory entry: tag, type SHORT (3), count 1, and the
      value left-justified in the 4-octet value field. */
  function TiffEntry(tag: nat, value: nat, little: bool): (e: seq<byte>)
    requires tag < U16_LIMIT && value < U16_LIMIT
    ensures |e| == ENTRY_SIZE
    ensures ReadU16(e, 0, little) == Some(tag)
    ensures ReadU16(e, VALUE_FIELD, little) == Some(value)
  {
    var kind := EncodeU16(tag, little) + EncodeU16(3, little);
    var front := kind + EncodeU32(1, little);
    var back := EncodeU16(value, little) + [0, 0];
    ReadsOfAppend(EncodeU16(tag, little), EncodeU16(3, little), 0, little);
    ReadsOfAppend(kind, EncodeU32(1, little), 0, little);
    ReadsOfAppend(front, back, 0, little);
    ReadsOfAppend(EncodeU16(value, little), [0, 0], 0, little);
    front + back
  }

  /** A TIFF header followed by a one-entry directory and a zero next-directory offset. */
  function Tiff(tag: nat, value: nat, little: bool): (t: seq<byte>)
    requires tag < U16_LIMIT && value < U16_LIMIT
    ensures |t| == TIFF_SIZE
  {
    TiffHeader(little) + EncodeU16(1, little) + TiffEntry(tag, value, little) + EncodeU32(0, little)
  }

  /** An APP1 segment up to its TIFF data: marker, length, "Exif" and
      `padding` NUL octets.  A standard Exif segment has two NUL octets. */
  function App1Head(tiffSize: nat, padding: nat): (a: seq<byte>)
    requires tiffSize + padding + 6 < U16_LIMIT
    ensures |a| == 8 + padding
    ensures ReadU16(a, 0, false) == Some(APP1)
    ensures ReadU32(a, 4, false) == Some(EXIF_ID)
  {
    var marker := [0xFF, 0xE1] + EncodeU16(6 + padding + tiffSize, false);
    var front := marker + [0x45, 0x78, 0x69, 0x66];
    ReadsOfAppend([0xFF, 0xE1], EncodeU16(6 + padding + tiffSize, false), 0, false);
    ReadsOfAppend(marker, [0x45, 0x78, 0x69, 0x66], 0, false);
    ReadsOfAppend(front, Zeros(padding), 0, false);
    ReadsOfAppend(front, Zeros(padding), 4, false);
    front + Zeros(padding)
  }

  function App1Segment(tiff: seq<byte>, padding: nat): (a: seq<byte>)
    requires |tiff| == TIFF_SIZE && padding <= 2
    ensures |a| == 8 + padding + TIFF_SIZE
  {
    App1Head(|tiff|, padding) + tiff
  }

  /** SOI and the segments to skip. */
  function JpegHead(prefix: seq<Segment>): seq<byte>
    requires AllSkippable(prefix)
  {
    [0xFF, 0xD8] + SegmentsBytes(prefix)
  }

  /** SOI, the segments to skip, then `app1`. */
  function Jpeg(prefix: seq<Segment>, app1: seq<byte>): seq<byte>
    requires AllSkippable(prefix)
  {
    JpegHead(prefix) + app1
  }

  // ---------------------------------------------------------------------------
  // Reading the pieces back

  /** The fields of an Exif APP1 segment at `at` with `padding` NUL octets
      after "Exif", as the reads of the scan see them. */
  predicate ExifApp1At(buf: seq<byte>, at: nat, padding: nat, little: bool, tag: nat, value: nat)
  {
    var header := at + 8 + padding;
    && ReadU16(buf, at, false) == Some(APP1)
    && ReadU32(buf, at + 4, false) == Some(EXIF_ID)
    && ReadU16(buf, header, false) == Some(ByteOrderMark(little))
    && ReadU32(buf, header + 4, little) == Some(8)
    && ReadU16(buf, header + 8, little) == Some(1)
    && ReadU16(buf, header + 10, little) == Some(tag)
    && ReadU16(buf, header + 10 + VALUE_FIELD, little) == Some(value)
  }

  /** The TIFF data holds its byte-order mark, directory offset, entry count,
      tag and value where a TIFF reader looks for them. */
  lemma TiffReads(tag: nat, value: nat, little: bool)
    requires tag < U16_LIMIT && value < U16_LIMIT
    ensures var t := Tiff(tag, value, little);
            && ReadU16(t, 0, false) == Some(ByteOrderMark(little))
            && ReadU32(t, 4, little) == Some(8)
            && ReadU16(t, 8, little) == Some(1)
            && ReadU16(t, 10, little) == Some(tag)
            && ReadU16(t, 10 + VALUE_FIELD, little) == Some(value)
  {
    var header, count, entry := TiffHeader(little), EncodeU16(1, little), TiffEntry(tag, value, little);
    var front := header + count + entry;
    var tail := EncodeU32(0, little);
    ReadsOfAppend(header, count, 0, false);
    ReadsOfAppend(header, count, 4, little);
    ReadsOfAppend(header, count, 0, little);
    ReadsOfAppend(header + count, entry, 0, false);
    ReadsOfAppend(header + count, entry, 4, little);
    ReadsOfAppend(header + count, entry, 8, little);
    ReadsOfAppend(header + count, entry, 0, little);
    ReadsOfAppend(header + count, entry, VALUE_FIELD, little);
    ReadsOfAppend(front, tail, 0, false);
    ReadsOfAppend(front, tail, 4, little);
    ReadsOfAppend(front, tail, 8, little);
    ReadsOfAppend(front, tail, 10, little);
    ReadsOfAppend(front, tail, 10 + VALUE_FIELD, little);
  }

  /** An APP1 segment built around the TIFF data reads as an Exif APP1 segment. */
  lemma App1SegmentReads(tag: nat, value: nat, little: bool, padding: nat)
    requires tag < U16_LIMIT && value < U16_LIMIT && padding <= 2
    ensures ExifApp1At(App1Segment(Tiff(tag, value, little), padding), 0, padding, little, tag, value)
  {
    var tiff := Tiff(tag, value, little);
    var head := App1Head(|tiff|, padding);
    TiffReads(tag, value, little);
    ReadsOfAppend(head, tiff, 0, false);
    ReadsOfAppend(head, tiff, 4, false);
    ReadsOfAppend(head, tiff, 4, little);
    ReadsOfAppend(head, tiff, 8, little);
    ReadsOfAppend(head, tiff, 10, little);
    ReadsOfAppend(head, tiff, 10 + VALUE_FIELD, little);
  }

  /** The fields keep their reads when something is put in front of the segment. */
  lemma ExifApp1AfterFront(front: seq<byte>, rest: seq<byte>, padding: nat, little: bool, tag: nat, value: nat)
    requires ExifApp1At(rest, 0, padding, little, tag, value)
    ensures ExifApp1At(front + rest, |front|, padding, little, tag, value)
  {
    var header := 8 + padding;
    ReadsOfAppend(front, rest, 0, false);
    ReadsOfAppend(front, rest, 4, false);
    ReadsOfAppend(front, rest, header, false);
    ReadsOfAppend(front, rest, header + 4, little);
    ReadsOfAppend(front, rest, header + 8, little);
    ReadsOfAppend(front, rest, header + 10, little);
    ReadsOfAppend(front, rest, header + 10 + VALUE_FIELD, little);
  }

  /** The fields keep their reads when anything follows the segment. */
  lemma ExifApp1BeforeBack(app1: seq<byte>, back: seq<byte>, padding: nat, little: bool, tag: nat, value: nat)
    requires |app1| == 8 + padding + TIFF_SIZE
    requires ExifApp1At(app1, 0, padding, little, tag, value)
    ensures ExifApp1At(app1 + back, 0, padding, little, tag, value)
  {
    var header := 8 + padding;
    ReadsOfAppend(app1, back, 0, false);
    ReadsOfAppend(app1, back, 4, false);
    ReadsOfAppend(app1, back, header, false);
    ReadsOfAppend(app1, back, header + 4, little);
    ReadsOfAppend(app1, back, header + 8, little);
    ReadsOfAppend(app1, back, header + 10, little);
    ReadsOfAppend(app1, back, header + 10 + VALUE_FIELD, little);
  }

  /** `buf` holds, at `off`, the marker and length field of the skippable segment `s`. */
  predicate SegmentAt(buf: seq<byte>, off: nat, s: Segment)
  {
    && off + |s.payload| + 4 <= |buf|
    && buf[off] == 0xFF && buf[off + 1] == s.kind && s.kind != 0xE1
    && ReadU16(buf, off + 2, false) == Some(|s.payload| + 2)
  }

  /** Total size of a run of segments. */
  function SegmentsSize(ss: seq<Segment>): nat
  {
    if ss == [] then 0 else |ss[0].payload| + 4 + SegmentsSize(ss[1..])
  }

  /** `buf` holds, from `off`, the headers of the run of segments `ss`. */
  predicate SegmentsAt(buf: seq<byte>, off: nat, ss: seq<Segment>)
    decreases |ss|
  {
    ss == [] || (SegmentAt(buf, off, ss[0]) && SegmentsAt(buf, off + |ss[0].payload| + 4, ss[1..]))
  }

  /** The encoded segments, between any front and back, are found by their headers. */
  lemma {:induction false} SegmentsBytesAt(front: seq<byte>, ss: seq<Segment>, back: seq<byte>)
    requires AllSkippable(ss)
    ensures SegmentsAt(front + SegmentsBytes(ss) + back, |front|, ss)
    ensures |SegmentsBytes(ss)| == SegmentsSize(ss)
    decreases |ss|
  {
    if ss != [] {
      var first := SegmentBytes(ss[0]);
      var rest := SegmentsBytes(ss[1..]);
      assert SegmentsBytes(ss) == first + rest;
      SegmentsBytesAt(front + first, ss[1..], back);
      Regroup(front, first, rest, back);
      SegmentHeaderAt(front, ss[0], rest + back);
    }
  }

  /** Two ways of grouping four pieces. */
  lemma Regroup(a: seq<byte>, b: seq<byte>, c: seq<byte>, d: seq<byte>)
    ensures a + (b + c) + d == (a + b) + c + d == (a + b) + (c + d)
  {
  }

  /** The header of an encoded segment, between any front and back. */
  lemma SegmentHeaderAt(front: seq<byte>, s: Segment, back: seq<byte>)
    requires Skippable(s)
    ensures SegmentAt((front + SegmentBytes(s)) + back, |front|, s)
  {
    var first := SegmentBytes(s);
    ReadsOfAppend(front, first, 2, false);
    ReadsOfAppend(front + first, back, |front| + 2, false);
  }

  /** SOI and the segment headers at the front of a stream. */
  lemma JpegFrame(prefix: seq<Segment>, app1: seq<byte>)
    requires AllSkippable(prefix)
    ensures var buf := Jpeg(prefix, app1);
            && StartsWithSoi(buf)
            && SegmentsAt(buf, 2, prefix)
            && |JpegHead(prefix)| == 2 + SegmentsSize(prefix)
            && |buf| == |JpegHead(prefix)| + |app1|
  {
    var buf := Jpeg(prefix, app1);
    SegmentsBytesAt([0xFF, 0xD8], prefix, app1);
    assert buf == [0xFF, 0xD8] + (SegmentsBytes(prefix) + app1);
    ReadsOfAppend([0xFF, 0xD8], SegmentsBytes(prefix) + app1, 0, false);
  }

  /** A stream of SOI, the run of segments `prefix`, and an Exif APP1
      segment at `at` with `padding` NUL octets, which ends the stream. */
  predicate ExifStream(buf: seq<byte>, prefix: seq<Segment>, at: nat, padding: nat, little: bool, tag: nat, value: nat)
  {
    && StartsWithSoi(buf)
    && SegmentsAt(buf, 2, prefix) && at == 2 + SegmentsSize(prefix)
    && |buf| == at + 8 + padding + TIFF_SIZE
    && ExifApp1At(buf, at, padding, little, tag, value)
  }

  /** The streams built here are such streams. */
  lemma JpegReads(prefix: seq<Segment>, tag: nat, value: nat, little: bool, padding: nat)
    requires AllSkippable(prefix) && tag < U16_LIMIT && value < U16_LIMIT && padding <= 2
    ensures ExifStream(Jpeg(prefix, App1Segment(Tiff(tag, value, little), padding)), prefix,
                       |JpegHead(prefix)|, padding, little, tag, value)
  {
    var app1 := App1Segment(Tiff(tag, value, little), padding);
    JpegFrame(prefix, app1);
    App1SegmentReads(tag, value, little, padding);
    ExifApp1AfterFront(JpegHead(prefix), app1, padding, little, tag, value);
  }

  // ---------------------------------------------------------------------------
  // Scanning the streams

  /** The scan passes over a run of skippable segments without looking inside them. */
  lemma {:induction false} ScanSkipsSegments(buf: seq<byte>, off: nat, ss: seq<Segment>, gap: nat)
    requires SegmentsAt(buf, off, ss)
    ensures Scan(buf, off, gap) == Scan(buf, off + SegmentsSize(ss), gap)
    decreases |ss|
  {
    if ss != [] {
      SkipsSegment(buf, off, |ss[0].payload| + 2, gap);
      ScanSkipsSegments(buf, off + |ss[0].payload| + 4, ss[1..], gap);
    }
  }

  /** The reader with gap 6 + `padding` follows an Exif APP1 segment with
      `padding` NUL octets to its Orientation entry and returns the value. */
  lemma ScanReadsExif(buf: seq<byte>, at: nat, padding: nat, little: bool, value: nat)
    requires ExifApp1At(buf, at, padding, little, ORIENTATION_TAG, value)
    ensures Scan(buf, at, WRITTEN_GAP + padding) == value
  {
    var entries := at + 18 + padding;
    assert (ByteOrderMark(little) == INTEL) == little;
    assert EntryTag(buf, entries, 0, little) == Some(ORIENTATION_TAG);
    assert EntryValue(buf, entries, 0, little) == Some(value);
    assert FindTag(buf, entries, 1, little) == Found(value);
    assert App1Step(buf, at + 2, WRITTEN_GAP + padding) == Stop(value);
    assert ScanStep(buf, at, WRITTEN_GAP + padding) == Stop(value);
  }

  /** On a stream that starts with SOI and the run of segments `prefix`, the
      reader's result is the scan's from the end of the run. */
  lemma StreamScan(buf: seq<byte>, prefix: seq<Segment>, at: nat, gap: nat)
    requires StartsWithSoi(buf) && SegmentsAt(buf, 2, prefix) && at == 2 + SegmentsSize(prefix)
    ensures Orientation(buf, gap) == Scan(buf, at, gap)
  {
    ScanSkipsSegments(buf, 2, prefix, gap);
  }

  /** On a stream whose Exif segment holds the Orientation entry, the reader
      with gap 6 + `padding` returns the entry's value. */
  lemma StreamOrientation(buf: seq<byte>, prefix: seq<Segment>, at: nat, padding: nat, little: bool, value: nat)
    requires ExifStream(buf, prefix, at, padding, little, ORIENTATION_TAG, value)
    ensures Orientation(buf, WRITTEN_GAP + padding) == value
  {
    StreamScan(buf, prefix, at, WRITTEN_GAP + padding);
    ScanReadsExif(buf, at, padding, little, value);
  }

  /** The reader with gap 6 + `padding` returns the Orientation value stored in
      an APP1 segment with `padding` NUL octets after "Exif", in either byte
      order, after any run of other segments and whatever image data `rest`
      follows the segment. */
  lemma ReadsOrientationBack(prefix: seq<Segment>, value: nat, little: bool, padding: nat, rest: seq<byte>)
    requires AllSkippable(prefix) && value < U16_LIMIT && padding <= 2
    ensures Orientation(Jpeg(prefix, App1Segment(Tiff(ORIENTATION_TAG, value, little), padding) + rest),
                        WRITTEN_GAP + padding) == value
  {
    var app1 := App1Segment(Tiff(ORIENTATION_TAG, value, little), padding);
    var head := JpegHead(prefix);
    var buf := Jpeg(prefix, app1 + rest);
    JpegFrame(prefix, app1 + rest);
    App1SegmentReads(ORIENTATION_TAG, value, little, padding);
    ExifApp1BeforeBack(app1, rest, padding, little, ORIENTATION_TAG, value);
    ExifApp1AfterFront(head, app1 + rest, padding, little, ORIENTATION_TAG, value);
    StreamScan(buf, prefix, |head|, WRITTEN_GAP + padding);
    ScanReadsExif(buf, |head|, padding, little, value);
  }

  /** `getOrientation` as written finds the tag when the TIFF header follows
      "Exif" directly, with no NUL octets between them. */
  lemma GetOrientationReadsPackedExif(prefix: seq<Segment>, value: nat, little: bool, rest: seq<byte>)
    requires AllSkippable(prefix) && value < U16_LIMIT
    ensures GetOrientation(Jpeg(prefix, App1Segment(Tiff(ORIENTATION_TAG, value, little), 0) + rest)) == value
  {
    ReadsOrientationBack(prefix, value, little, 0, rest);
  }

  /** The corrected reader returns the Orientation value of a standard Exif
      APP1 segment ("Exif", two NUL octets, TIFF header), in either byte
      order, after any run of other segments and before any image data. */
  lemma GetOrientationFixedReadsExif(prefix: seq<Segment>, value: nat, little: bool, rest: seq<byte>)
    requires AllSkippable(prefix) && value < U16_LIMIT
    ensures GetOrientationFixed(Jpeg(prefix, App1Segment(Tiff(ORIENTATION_TAG, value, little), 2) + rest)) == value
  {
    ReadsOrientationBack(prefix, value, little, 2, rest);
  }

  /** The octets of the TIFF header in each byte order. */
  lemma TiffHeaderOctets(little: bool)
    ensures TiffHeader(little) == if little then [0x49, 0x49, 42, 0, 8, 0, 0, 0]
                                  else [0x4D, 0x4D, 0, 42, 0, 0, 0, 8]
  {
    assert EncodeU16(ByteOrderMark(little), false) == if little then [0x49, 0x49] else [0x4D, 0x4D];
    assert EncodeU16(42, little) == if little then [42, 0] else [0, 42];
    assert EncodeU32(8, little) == if little then [8, 0, 0, 0] else [0, 0, 0, 8];
  }

  /** The directory offset the reader as written takes from a standard Exif
      APP1 segment: the octets of 42 and the first half of the real offset 8,
      read big-endian. */
  function MisreadOffset(little: bool): nat
  {
    if little then 0x2A00_0800 else 0x002A_0000
  }

  /** What the reader as written sees in a standard Exif APP1 segment: the two
      NUL octets where it expects the byte-order mark, and `MisreadOffset`
      where it expects the directory offset. */
  lemma StandardApp1Misread(tag: nat, value: nat, little: bool)
    requires tag < U16_LIMIT && value < U16_LIMIT
    ensures var app1 := App1Segment(Tiff(tag, value, little), 2);
            && ReadU16(app1, 8, false) == Some(0)
            && ReadU32(app1, 12, false) == Some(MisreadOffset(little))
  {
    var tiff := Tiff(tag, value, little);
    var head := App1Head(|tiff|, 2);
    var front := head[..8];
    assert head == front + Zeros(2);
    ReadsOfAppend(front, Zeros(2), 0, false);
    ReadsOfAppend(head, tiff, 8, false);
    TiffHeaderOctets(little);
    var header := TiffHeader(little);
    var count := EncodeU16(1, little);
    var entry := TiffEntry(tag, value, little);
    ReadsOfAppend(header, count, 2, false);
    ReadsOfAppend(header + count, entry, 2, false);
    ReadsOfAppend(header + count + entry, EncodeU32(0, little), 2, false);
    ReadsOfAppend(head, tiff, 2, false);
  }

  /** The reads of a standard Exif APP1 segment followed by `rest`, at the
      positions the reader as written looks at. */
  lemma StandardSegmentReads(value: nat, little: bool, rest: seq<byte>)
    requires value < U16_LIMIT
    ensures var seg := App1Segment(Tiff(ORIENTATION_TAG, value, little), 2) + rest;
            && ReadU16(seg, 0, false) == Some(APP1)
            && ReadU32(seg, 4, false) == Some(EXIF_ID)
            && ReadU16(seg, 8, false) == Some(0)
            && ReadU32(seg, 12, false) == Some(MisreadOffset(little))
  {
    var app1 := App1Segment(Tiff(ORIENTATION_TAG, value, little), 2);
    App1SegmentReads(ORIENTATION_TAG, value, little, 2);
    StandardApp1Misread(ORIENTATION_TAG, value, little);
    ReadsOfAppend(app1, rest, 0, false);
    ReadsOfAppend(app1, rest, 4, false);
    ReadsOfAppend(app1, rest, 8, false);
    ReadsOfAppend(app1, rest, 12, false);
  }

  /** The same reads in a whole stream, after SOI and the segments `prefix`. */
  lemma StandardStreamReads(prefix: seq<Segment>, value: nat, little: bool, rest: seq<byte>)
    requires AllSkippable(prefix) && value < U16_LIMIT
    ensures var buf := Jpeg(prefix, App1Segment(Tiff(ORIENTATION_TAG, value, little), 2) + rest);
            var at := |JpegHead(prefix)|;
            && StartsWithSoi(buf) && SegmentsAt(buf, 2, prefix) && at == 2 + SegmentsSize(prefix)
            && |buf| == at + 8 + 2 + TIFF_SIZE + |rest|
            && ReadU16(buf, at, false) == Some(APP1)
            && ReadU32(buf, at + 4, false) == Some(EXIF_ID)
            && ReadU16(buf, at + 8, false) == Some(0)
            && ReadU32(buf, at + 12, false) == Some(MisreadOffset(little))
  {
    var seg := App1Segment(Tiff(ORIENTATION_TAG, value, little), 2) + rest;
    var head := JpegHead(prefix);
    JpegFrame(prefix, seg);
    StandardSegmentReads(value, little, rest);
    ReadsOfAppend(head, seg, 0, false);
    ReadsOfAppend(head, seg, 4, false);
    ReadsOfAppend(head, seg, 8, false);
    ReadsOfAppend(head, seg, 12, false);
  }

  /** An APP1 segment whose octets at the written byte-order position are NUL
      and whose 32-bit value 4 octets later points past the end of the stream
      makes the reader as written return 1. */
  lemma StreamMisread(buf: seq<byte>, prefix: seq<Segment>, at: nat)
    requires StartsWithSoi(buf) && SegmentsAt(buf, 2, prefix) && at == 2 + SegmentsSize(prefix)
    requires ReadU16(buf, at, false) == Some(APP1) && ReadU32(buf, at + 4, false) == Some(EXIF_ID)
    requires ReadU16(buf, at + 8, false) == Some(0)
    requires ReadU32(buf, at + 12, false).Some? && |buf| < at + 10 + ReadU32(buf, at + 12, false).value
    ensures GetOrientation(buf) == DEFAULT_ORIENTATION
  {
    StreamScan(buf, prefix, at, WRITTEN_GAP);
    assert App1Step(buf, at + 2, WRITTEN_GAP) == Stop(DEFAULT_ORIENTATION);
    assert ScanStep(buf, at, WRITTEN_GAP) == Stop(DEFAULT_ORIENTATION);
  }

  /** `getOrientation` as written reads a standard Exif APP1 segment two octets
      early: it takes the NUL padding for a (big-endian) byte-order mark and
      reads `MisreadOffset` as the directory offset.  Unless the stream goes on
      past that offset (about 2.75 MB after the segment for "MM", about 704 MB
      for "II"), the directory read fails and the result is 1, whatever
      orientation is stored. */
  lemma GetOrientationMissesStandardExif(prefix: seq<Segment>, value: nat, little: bool, rest: seq<byte>)
    requires AllSkippable(prefix) && value < U16_LIMIT
    requires TIFF_SIZE + |rest| < MisreadOffset(little)
    ensures GetOrientation(Jpeg(prefix, App1Segment(Tiff(ORIENTATION_TAG, value, little), 2) + rest))
         == DEFAULT_ORIENTATION
  {
    var buf := Jpeg(prefix, App1Segment(Tiff(ORIENTATION_TAG, value, little), 2) + rest);
    StandardStreamReads(prefix, value, little, rest);
    StreamMisread(buf, prefix, |JpegHead(prefix)|);
  }

  /** A one-entry big-endian directory holding Orientation `stored`. */
  function OrientationDirectory(stored: nat): (d: seq<byte>)
    requires stored < U16_LIMIT
    ensures |d| == 2 + ENTRY_SIZE
    ensures ReadU16(d, 0, false) == Some(1)
    ensures ReadU16(d, 2, false) == Some(ORIENTATION_TAG)
    ensures ReadU16(d, 2 + VALUE_FIELD, false) == Some(stored)
  {
    var count := EncodeU16(1, false);
    var entry := TiffEntry(ORIENTATION_TAG, stored, false);
    ReadsOfAppend(count, entry, 0, false);
    ReadsOfAppend(count, entry, VALUE_FIELD, false);
    count + entry
  }

  /** The scan as written at an APP1 segment with a NUL byte-order position
      follows the misread offset to a big-endian directory there. */
  lemma ScanFollowsMisreadOffset(buf: seq<byte>, at: nat, offset: nat, stored: nat)
    requires ReadU16(buf, at, false) == Some(APP1) && ReadU32(buf, at + 4, false) == Some(EXIF_ID)
    requires ReadU16(buf, at + 8, false) == Some(0) && ReadU32(buf, at + 12, false) == Some(offset)
    requires ReadU16(buf, at + 8 + offset, false) == Some(1)
    requires ReadU16(buf, at + 10 + offset, false) == Some(ORIENTATION_TAG)
    requires ReadU16(buf, at + 10 + offset + VALUE_FIELD, false) == Some(stored)
    ensures Scan(buf, at, WRITTEN_GAP) == stored
  {
    var entries := at + 10 + offset;
    assert EntryTag(buf, entries, 0, false) == Some(ORIENTATION_TAG);
    assert EntryValue(buf, entries, 0, false) == Some(stored);
    assert FindTag(buf, entries, 1, false) == Found(stored);
    assert App1Step(buf, at + 2, WRITTEN_GAP) == Stop(stored);
    assert ScanStep(buf, at, WRITTEN_GAP) == Stop(stored);
  }

  /** The other side of the misread: a big-endian ("MM") standard segment
      followed by 0x2A_0000 - 28 octets of any content and then a directory
      gives the orientation stored in that directory, not in the segment. */
  lemma GetOrientationReadsPastStandardExif(prefix: seq<Segment>, value: nat, filler: seq<byte>, stored: nat)
    requires AllSkippable(prefix) && value < U16_LIMIT && stored < U16_LIMIT
    requires TIFF_SIZE + 2 + |filler| == MisreadOffset(false)
    ensures GetOrientation(Jpeg(prefix, App1Segment(Tiff(ORIENTATION_TAG, value, false), 2)
                                        + (filler + OrientationDirectory(stored)))) == stored
  {
    var app1 := App1Segment(Tiff(ORIENTATION_TAG, value, false), 2);
    var dir := OrientationDirectory(stored);
    var rest := filler + dir;
    var head := JpegHead(prefix);
    var buf := Jpeg(prefix, app1 + rest);
    var at := |head|;
    var offset := MisreadOffset(false);
    StandardStreamReads(prefix, value, false, rest);
    DirectoryAfter(head + app1 + filler, dir, stored);
    assert buf == head + app1 + filler + dir;
    assert |head + app1 + filler| == at + 8 + offset;
    StreamScan(buf, prefix, at, WRITTEN_GAP);
    ScanFollowsMisreadOffset(buf, at, offset, stored);
  }

  /** The directory's reads, with anything in front of it. */
  lemma DirectoryAfter(front: seq<byte>, dir: seq<byte>, stored: nat)
    requires stored < U16_LIMIT && dir == OrientationDirectory(stored)
    ensures ReadU16(front + dir, |front|, false) == Some(1)
    ensures ReadU16(front + dir, |front| + 2, false) == Some(ORIENTATION_TAG)
    ensures ReadU16(front + dir, |front| + 2 + VALUE_FIELD, false) == Some(stored)
  {
    ReadsOfAppend(front, dir, 0, false);
    ReadsOfAppend(front, dir, 2, false);
    ReadsOfAppend(front, dir, 2 + VALUE_FIELD, false);
  }

  /** The first octet of a 16-bit value in the given byte order. */
  lemma FirstOctet(b0: byte, b1: byte, little: bool, v: nat)
    requires Uint16(b0, b1, little) == v
    ensures b0 == if little then v % 0x100 else v / 0x100
  {
  }

  /** An Exif segment whose one directory entry is not the Orientation tag
      sends the scan on to the entry list. */
  lemma ScanPassesOtherTag(buf: seq<byte>, at: nat, padding: nat, little: bool, tag: nat, value: nat)
    requires ExifApp1At(buf, at, padding, little, tag, value) && tag != ORIENTATION_TAG
    ensures Scan(buf, at, WRITTEN_GAP + padding) == Scan(buf, at + 18 + padding, WRITTEN_GAP + padding)
  {
    var entries := at + 18 + padding;
    assert (ByteOrderMark(little) == INTEL) == little;
    assert EntryTag(buf, entries, 0, little) == Some(tag);
    assert FindTagFrom(buf, entries, 1, little, 1) == Absent;
    assert FindTag(buf, entries, 1, little) == Absent;
    assert App1Step(buf, at + 2, WRITTEN_GAP + padding) == Next(entries);
    assert ScanStep(buf, at, WRITTEN_GAP + padding) == Next(entries);
  }

  /** A 16-bit value neither of whose octets is 0xFF cannot be read as a marker. */
  lemma ValueStopsScan(buf: seq<byte>, off: nat, little: bool, v: nat, gap: nat)
    requires ReadU16(buf, off, little) == Some(v) && v / 0x100 != 0xFF && v % 0x100 != 0xFF
    ensures Scan(buf, off, gap) == DEFAULT_ORIENTATION
  {
    FirstOctet(buf[off], buf[off + 1], little, v);
    NonMarkerStops(buf, off, gap);
  }

  /** On a stream whose one directory entry is not the Orientation tag, the
      scan resumes at the entry list, whose first octet is not a marker
      prefix, and stops with 1. */
  lemma StreamWithoutTag(buf: seq<byte>, prefix: seq<Segment>, at: nat, padding: nat, little: bool, tag: nat, value: nat)
    requires ExifStream(buf, prefix, at, padding, little, tag, value)
    requires tag != ORIENTATION_TAG && tag / 0x100 != 0xFF && tag % 0x100 != 0xFF
    ensures Orientation(buf, WRITTEN_GAP + padding) == DEFAULT_ORIENTATION
  {
    StreamScan(buf, prefix, at, WRITTEN_GAP + padding);
    ScanPassesOtherTag(buf, at, padding, little, tag, value);
    ValueStopsScan(buf, at + 18 + padding, little, tag, WRITTEN_GAP + padding);
  }

  /** A one-entry directory whose tag is not Orientation and has no 0xFF
      octet gives 1.  (A tag with a 0xFF octet can be taken for a marker when
      the scan resumes at the entry list.) */
  lemma MissingTagGivesDefault(prefix: seq<Segment>, tag: nat, value: nat, little: bool, padding: nat)
    requires AllSkippable(prefix) && tag < U16_LIMIT && value < U16_LIMIT && padding <= 2
    requires tag != ORIENTATION_TAG && tag / 0x100 != 0xFF && tag % 0x100 != 0xFF
    ensures Orientation(Jpeg(prefix, App1Segment(Tiff(tag, value, little), padding)), WRITTEN_GAP + padding)
         == DEFAULT_ORIENTATION
  {
    JpegReads(prefix, tag, value, little, padding);
    StreamWithoutTag(Jpeg(prefix, App1Segment(Tiff(tag, value, little), padding)),
                     prefix, |JpegHead(prefix)|, padding, little, tag, value);
  }

  /** Segment headers that lie before the cut are still there after it. */
  lemma {:induction false} CutKeepsSegments(buf: seq<byte>, c: nat, off: nat, ss: seq<Segment>)
    requires c <= |buf| && SegmentsAt(buf, off, ss) && off + SegmentsSize(ss) <= c
    ensures SegmentsAt(buf[..c], off, ss)
    decreases |ss|
  {
    if ss != [] {
      ReadsOfCut(buf, c, off + 2, false);
      CutKeepsSegments(buf, c, off + |ss[0].payload| + 4, ss[1..]);
    }
  }

  /** SOI and the segment headers survive a cut after them. */
  lemma CutKeepsFrame(buf: seq<byte>, prefix: seq<Segment>, cut: nat)
    requires StartsWithSoi(buf) && SegmentsAt(buf, 2, prefix)
    requires 2 + SegmentsSize(prefix) <= cut <= |buf|
    ensures StartsWithSoi(buf[..cut]) && SegmentsAt(buf[..cut], 2, prefix)
  {
    CutKeepsSegments(buf, cut, 2, prefix);
    ReadsOfCut(buf, cut, 0, false);
  }

  /** The header fields of an Exif segment at `at`, up to its entry count. */
  predicate ExifHeaderAt(buf: seq<byte>, at: nat, padding: nat, little: bool)
  {
    var header := at + 8 + padding;
    && ReadU16(buf, at, false) == Some(APP1)
    && ReadU32(buf, at + 4, false) == Some(EXIF_ID)
    && ReadU16(buf, header, false) == Some(ByteOrderMark(little))
    && ReadU32(buf, header + 4, little) == Some(8)
    && ReadU16(buf, header + 8, little) == Some(1)
  }

  /** Cutting the stream after the entry count keeps the header fields, and
      keeps the Orientation tag but loses its value when cut before the end
      of the value. */
  lemma CutKeepsHeader(buf: seq<byte>, at: nat, padding: nat, little: bool, value: nat, cut: nat)
    requires ExifApp1At(buf, at, padding, little, ORIENTATION_TAG, value)
    requires at + 18 + padding <= cut < at + 18 + padding + VALUE_FIELD + 2 && cut <= |buf|
    ensures ExifHeaderAt(buf[..cut], at, padding, little)
    ensures ReadU16(buf[..cut], at + 18 + padding, little) in {None, Some(ORIENTATION_TAG)}
    ensures ReadU16(buf[..cut], at + 18 + padding + VALUE_FIELD, little) == None
  {
    var header := at + 8 + padding;
    ReadsOfCut(buf, cut, at, false);
    ReadsOfCut(buf, cut, at + 4, false);
    ReadsOfCut(buf, cut, header, false);
    ReadsOfCut(buf, cut, header + 4, little);
    ReadsOfCut(buf, cut, header + 8, little);
    ReadsOfCut(buf, cut, header + 10, little);
    ReadsOfCut(buf, cut, header + 10 + VALUE_FIELD, little);
  }

  /** An Exif segment whose one entry is the Orientation tag, or unreadable,
      but whose value is unreadable, makes the search fault: the scan stops with 1. */
  lemma ScanFaultsOnEntry(buf: seq<byte>, at: nat, padding: nat, little: bool)
    requires ExifHeaderAt(buf, at, padding, little)
    requires ReadU16(buf, at + 18 + padding, little) in {None, Some(ORIENTATION_TAG)}
    requires ReadU16(buf, at + 18 + padding + VALUE_FIELD, little) == None
    ensures Scan(buf, at, WRITTEN_GAP + padding) == DEFAULT_ORIENTATION
  {
    var entries := at + 18 + padding;
    assert (ByteOrderMark(little) == INTEL) == little;
    assert EntryValue(buf, entries, 0, little) == None;
    assert FindTag(buf, entries, 1, little) == Truncated;
    assert App1Step(buf, at + 2, WRITTEN_GAP + padding) == Stop(DEFAULT_ORIENTATION);
    assert ScanStep(buf, at, WRITTEN_GAP + padding) == Stop(DEFAULT_ORIENTATION);
  }

  /** A stream cut off inside the Orientation entry, before the end of its
      value, makes the entry search fault, and the reader returns 1. */
  lemma CutStream(buf: seq<byte>, prefix: seq<Segment>, at: nat, padding: nat, little: bool, value: nat, cut: nat)
    requires ExifStream(buf, prefix, at, padding, little, ORIENTATION_TAG, value)
    requires at + 18 + padding <= cut < at + 18 + padding + VALUE_FIELD + 2
    ensures Orientation(buf[..cut], WRITTEN_GAP + padding) == DEFAULT_ORIENTATION
  {
    CutKeepsFrame(buf, prefix, cut);
    CutKeepsHeader(buf, at, padding, little, value, cut);
    StreamScan(buf[..cut], prefix, at, WRITTEN_GAP + padding);
    ScanFaultsOnEntry(buf[..cut], at, padding, little);
  }

  /** A stream cut off inside the Orientation entry, before the end of its
      value, gives 1. */
  lemma CutDirectoryGivesDefault(prefix: seq<Segment>, value: nat, little: bool, padding: nat, cut: nat)
    requires AllSkippable(prefix) && value < U16_LIMIT && padding <= 2
    requires var entries := |JpegHead(prefix)| + 8 + padding + 10;
             entries <= cut < entries + VALUE_FIELD + 2
    ensures Orientation(Jpeg(prefix, App1Segment(Tiff(ORIENTATION_TAG, value, little), padding))[..cut],
                        WRITTEN_GAP + padding) == DEFAULT_ORIENTATION
  {
    JpegReads(prefix, ORIENTATION_TAG, value, little, padding);
    CutStream(Jpeg(prefix, App1Segment(Tiff(ORIENTATION_TAG, value, little), padding)),
              prefix, |JpegHead(prefix)|, padding, little, value, cut);
  }
}
