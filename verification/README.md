# Image normalisation of physics-helper, in Dafny

The app prepares each uploaded photo before sending it to a vision model.
This project models the part of `utils/imageUtils.ts` that does that work.
It has two pure parts.

- `getOrientation` reads the Exif orientation of a JPEG stream. It walks
  the marker segments (Annex B of ITU-T T.81), finds the APP1 segment and
  checks the "Exif" identifier. It then takes the byte order from where it
  expects the TIFF header, follows the offset found there to what it takes
  for the first image file directory (section 2 of TIFF 6.0) and returns the
  value of tag 0x0112, Orientation (section 8 of TIFF 6.0). Any failure
  gives 1.
- `optimizeImage` makes three decisions:
  - it rejects bad input;
  - it computes a canvas of at most `MAX_DIMENSION` (2048) pixels per side,
    with width and height exchanged for orientations 5 to 8;
  - it issues the `translate`/`rotate`/`scale` calls that stand the
    picture upright.

The modules, in dependency order:

- `Bytes`: octets, and the `DataView` reads `getUint16`/`getUint32`. A read
  past the end yields `None`, where `DataView` throws.
- `Exif`: the reader as a total function, `GetOrientation`.
  - One pass of the `while` body is `ScanStep`; the loop is `Scan`; the
    entry loop is `FindTag`.
  - The imperative `ReadOrientation`, `ReadApp1` and `SearchEntries`
    follow the source statement by statement. They are proved to compute
    the functions.
  - The distance from the APP1 length field to the byte-order mark is a
    parameter. As written it is 6 (`GetOrientation`); a standard Exif
    segment needs 8 (`GetOrientationFixed`, see Findings).
- `ExifSamples`: JPEG streams built from the formats, and what each reader
  makes of them.
- `Geometry`: the upright size, the ratio `min(2048/w, 2048/h, 1)` on exact
  reals, `Math.round` and the canvas size.
- `Transform`: the context calls per orientation, as a datatype of steps.
  They are checked against where TIFF 6.0 says each stored row and column
  must appear.
- `Optimizer`: `optimizeImage` as a function. Its arguments are the input,
  the decoded bytes, the first image event and whether a 2D context was
  obtained, plus the reader's gap. Its result is the rejection reason or
  what is drawn. At the gap as written (6) it is the source's pipeline; at
  the standard gap (8) it is the corrected pipeline (see Findings).

Three behaviours are modelled as the code has them, not as a tidier design
would have them:

- Nothing keeps a canvas side at 1 pixel or more. A 1 by 5000 picture gets
  a canvas 0 pixels wide (`Geometry.ThinPictureLosesWidth`).
- A byte-order mark other than "II" is not treated as malformed. Any other
  value means big-endian.
- A directory without the Orientation tag does not always give 1. The scan
  goes on at the entry list as if it were the next marker. It gives 1 for a
  one-entry directory whose tag has no 0xFF octet, which is what
  `ExifSamples.MissingTagGivesDefault` covers. A little-endian tag 0x00FF,
  say, is read as marker 0xFF00 and skipped like any other segment.

## Model

| member | source | states |
|---|---|---|
| Bytes.ReadU16 | utils/imageUtils.ts:27-29 | `getUint16` gives a value exactly when both octets lie inside the buffer, and the value fits in 16 bits |
| Bytes.ReadU32 | utils/imageUtils.ts:42 | `getUint32` gives a value exactly when all four octets lie inside the buffer, and the value fits in 32 bits |
| Exif.FindTag | utils/imageUtils.ts:51-55 | The entry loop over `count` 12-octet entries; a found value fits in 16 bits. `Exif.FindTagMeaning` characterises its three outcomes |
| Exif.FindTagFromMeaning | utils/imageUtils.ts:51-55 | Resumed after non-matching entries, the entry loop returns the value of the first later Orientation entry, or faults at the first unreadable entry; it runs out of entries exactly when every entry was read and none matched |
| Exif.FindTagMeaning | utils/imageUtils.ts:51-55 | The first entry whose tag is 0x0112 decides the loop. Its raw 16-bit value is returned, with no check that it lies in 1..8. A read past the end faults, and "no entry matched" holds exactly when all entries were read |
| Exif.FindTagOutcomesExclusive | utils/imageUtils.ts:51-55 | A readable first match and a fault cannot both occur in one entry list |
| Exif.FirstIsUnique | utils/imageUtils.ts:51-55 | A first match and a fault can only be the same entry, with an unreadable value |
| Exif.App1Step | utils/imageUtils.ts:40-55 | The APP1 branch returns something other than 1 only after reading "Exif" at length field + 2; when it goes on, it goes on past the byte-order mark |
| Exif.ScanStep | utils/imageUtils.ts:36-60 | Every pass of the loop that does not return moves the offset forward by at least 2, and only past a marker octet 0xFF |
| Exif.Scan | utils/imageUtils.ts:33-62 | The loop terminates (measure: octets left) and returns a 16-bit value |
| Exif.Orientation | utils/imageUtils.ts:24-31 | Without SOI (including buffers shorter than 2 octets) the result is 1; any other result needs `FF D8` at the start |
| Exif.GetOrientation | utils/imageUtils.ts:24-67 | The reader as written: total, returns 1 without SOI or on a buffer shorter than 2 octets |
| Exif.GetOrientationFixed | utils/imageUtils.ts:46-47 | The reader with the byte-order mark taken 8 octets after the length field; also 1 without SOI |
| Exif.NonMarkerStops | utils/imageUtils.ts:56-57 | A marker whose high octet is not 0xFF stops the scan with 1 |
| Exif.SkipsSegment | utils/imageUtils.ts:58-60 | Any other non-APP1 marker advances the scan by the big-endian length that follows the marker |
| Exif.App1WithoutExifStops | utils/imageUtils.ts:40-44 | An APP1 segment without "Exif" at length field + 2 gives 1 |
| Exif.App1Outcome | utils/imageUtils.ts:46-55 | Little-endian exactly when the big-endian value at length field + 6 is 0x4949. The directory is that position plus the 32-bit offset read 4 octets later. The first Orientation entry's value is returned, 1 on a fault, and otherwise the scan resumes at the entry list |
| Exif.ScanOfCut | utils/imageUtils.ts:36-66 | On a stream cut short, the scan gives the whole stream's result or 1 |
| Exif.OrientationOfCut | utils/imageUtils.ts:63-66 | A truncated stream never yields an orientation the whole stream does not; reads past the end collapse to 1 |
| Exif.SearchEntries | utils/imageUtils.ts:51-55 | The source's `for` loop computes `FindTag` |
| Exif.ReadApp1 | utils/imageUtils.ts:40-55 | The source's APP1 branch, with `offset += 6` and `offset += getUint32(...)`, computes `App1Step` |
| Exif.ReadOrientation | utils/imageUtils.ts:24-67 | The source's `while` loop computes `GetOrientation` |
| ExifSamples.ScanSkipsSegments | utils/imageUtils.ts:58-60 | The scan passes over any run of non-APP1 segments without looking inside them |
| ExifSamples.ScanReadsExif | utils/imageUtils.ts:40-55 | Following an Exif APP1 segment whose layout matches the reader's gap leads to the stored Orientation value |
| ExifSamples.StreamOrientation | utils/imageUtils.ts:24-55 | On a stream of SOI, other segments and such an APP1 segment, the reader returns the stored value |
| ExifSamples.ReadsOrientationBack | utils/imageUtils.ts:24-55 | Round trip for the reader whose gap is 6 + `padding`: a JPEG stream whose APP1 segment has `padding` (0 to 2) NUL octets after "Exif" and stores an Orientation value, in either byte order, after any segments and before any image data, reads back that value. The reader as written (gap 6) reads back the layout without padding; the standard layout (padding 2) is read back only by the corrected reader (gap 8) |
| ExifSamples.GetOrientationReadsPackedExif | utils/imageUtils.ts:24-67 | The reader as written returns the stored value when the TIFF header follows "Exif" with no NUL padding, whatever image data follows the segment |
| ExifSamples.GetOrientationFixedReadsExif | utils/imageUtils.ts:46-47 | The corrected reader returns the stored value of a standard Exif segment, in both byte orders, whatever image data follows the segment |
| ExifSamples.StandardApp1Misread | utils/imageUtils.ts:46-47 | In a standard Exif segment, the reader as written reads the NUL padding as the byte-order mark. It reads 42 and half of the directory offset as the offset |
| ExifSamples.StreamMisread | utils/imageUtils.ts:46-48 | A NUL byte-order position, read as big-endian, and an offset that points past the end of the stream make the reader as written return 1 |
| ExifSamples.GetOrientationMissesStandardExif | utils/imageUtils.ts:42-48 | The reader as written returns 1 on a standard Exif segment, whatever orientation it stores, when fewer octets follow the TIFF header's start than the misread offset: any stream under about 704 MB past the header for "II", under 0x2A_0000 octets for "MM" |
| ExifSamples.OrientationDirectory | utils/imageUtils.ts:49-55 | A one-entry big-endian directory whose count reads 1, whose tag reads 0x0112 and whose value field reads the stored value |
| ExifSamples.ScanFollowsMisreadOffset | utils/imageUtils.ts:46-55 | With NUL octets at the byte-order position, the reader as written takes the directory from the big-endian offset 4 octets later, wherever it lands |
| ExifSamples.GetOrientationReadsPastStandardExif | utils/imageUtils.ts:42-55 | A big-endian standard Exif segment followed by 0x2A_0000 - 28 octets of anything and then a directory gives the orientation stored in that directory, not the one in the segment |
| ExifSamples.ScanPassesOtherTag | utils/imageUtils.ts:49-55 | When no entry matches, the scan resumes at the entry list rather than at the next segment |
| ExifSamples.StreamWithoutTag | utils/imageUtils.ts:49-62 | A one-entry directory whose tag is not 0x0112 and has no 0xFF octet makes the resumed scan stop with 1 at the entry list, whose first octet is then not a marker prefix |
| ExifSamples.MissingTagGivesDefault | utils/imageUtils.ts:49-62 | A stream whose one-entry directory holds a tag other than Orientation with no 0xFF octet gives 1 (for any gap 6 + padding matching the layout) |
| ExifSamples.ScanFaultsOnEntry | utils/imageUtils.ts:51-55 | An Orientation entry whose value cannot be read makes the reader return 1 |
| ExifSamples.CutStream | utils/imageUtils.ts:51-55 | A stream cut off inside the Orientation entry gives 1 |
| ExifSamples.CutDirectoryGivesDefault | utils/imageUtils.ts:63-66 | A built stream cut off inside its directory entry gives 1 |
| Geometry.UprightTwice | utils/imageUtils.ts:103-106 | Exchanging width and height twice for orientations 5 to 8 gives back the size, and keeps it non-empty |
| Geometry.Round | utils/imageUtils.ts:110-111 | `Math.round` gives the integer nearest to x, halves going up |
| Geometry.RoundIsFloor | utils/imageUtils.ts:110-111 | `Math.round(x)` is `floor(x + 0.5)` |
| Geometry.ScaleShrinks | utils/imageUtils.ts:109-111 | A factor of at most 1 never enlarges a side, and a factor below 1 shrinks it |
| Geometry.Ratio | utils/imageUtils.ts:109 | The ratio lies in (0, 1]. It brings both sides within 2048, and unless it is 1 it brings one side to exactly 2048 |
| Geometry.RoundSide | utils/imageUtils.ts:110-111 | A rounded side is within half a pixel of the scaled side. It is no larger than the source side or 2048 |
| Geometry.TargetSize | utils/imageUtils.ts:100-111 | The canvas is at most 2048 by 2048 and never larger than the upright source. Each side is within half a pixel of the upright side times one common ratio |
| Geometry.RatioOfFitting | utils/imageUtils.ts:109 | A size that already fits gets ratio 1 |
| Geometry.RatioOfOversized | utils/imageUtils.ts:109 | A size over 2048 on either side gets a ratio below 1 |
| Geometry.FittingSizeKept | utils/imageUtils.ts:100-111 | When both upright sides are at most 2048, the canvas is the upright size |
| Geometry.LongerSideMeetsMax | utils/imageUtils.ts:108-111 | An oversized picture's longer upright side becomes exactly 2048 |
| Geometry.ShapeKept | utils/imageUtils.ts:108-111 | Landscape stays landscape, portrait stays portrait, and a square stays square |
| Geometry.PortraitPhotoExample | utils/imageUtils.ts:100-111 | 4000 by 3000 with orientation 6 gives a 1536 by 2048 canvas |
| Geometry.ThinPictureLosesWidth | utils/imageUtils.ts:110-111 | 1 by 5000 gives a canvas 0 pixels wide |
| Transform.Plan | utils/imageUtils.ts:124-133 | Orientations 2 to 8 get a non-empty sequence of at most three calls, and every other value gets none |
| Transform.PlanMatchesTiffOrientation | utils/imageUtils.ts:123-133 | The calls for each orientation put every stored point where TIFF 6.0 says row 0 and column 0 are shown |
| Transform.PlanFillsCanvas | utils/imageUtils.ts:123-146 | The draw rectangle, which is the canvas size exchanged back for orientations 5 to 8, is carried into the canvas and covers all of it |
| Transform.IdentityOutsideTwoToEight | utils/imageUtils.ts:132 | Orientation 1 and values outside 1 to 8 leave the picture untouched |
| Optimizer.OrientationOf | utils/imageUtils.ts:82 | The orientation is the reader's 16-bit result; at `WRITTEN_GAP` it is `getOrientation` as written. A payload that does not decode, or that lacks SOI, gives 1 |
| Optimizer.Prepare | utils/imageUtils.ts:97-140 | The canvas fits in 2048. The draw size is the canvas exchanged back for orientations 5 to 8 and is never larger than the decoded picture. Calls are made exactly for orientations 2 to 8 |
| Optimizer.OptimizeImage | utils/imageUtils.ts:76-161 | At `WRITTEN_GAP` (the source as written), each outcome holds exactly under its condition: an empty or non-string input, a timeout, a load error, a zero-width or zero-height picture, no context, or else a drawing with the orientation read and the computed canvas |
| Optimizer.DrawnSizes | utils/imageUtils.ts:93-140 | A drawn picture has a canvas within 2048, is never drawn larger than decoded, and is drawn at its own size when it already fits |
| Optimizer.DrawnCoversCanvas | utils/imageUtils.ts:123-146 | The drawn picture lands on the canvas where its orientation says, and covers the canvas |
| Optimizer.StandardPhotoDrawnUnrotated | utils/imageUtils.ts:82-133 | A loaded standard Exif photo whose image data after the segment stays below the misread offset (fewer than 0x2A_0000 - 26 octets for "MM", 0x2A00_0800 - 26 for "II") is drawn by the source's pipeline with orientation 1, no context calls and the canvas of the unrotated picture. The corrected pipeline draws it with its stored orientation, whatever follows. A longer "MM" photo is read at the misread offset instead (`ExifSamples.GetOrientationReadsPastStandardExif`) |

## Left out

- `base64ToArrayBuffer` (`atob`, the data-URI `split(',')`): platform base64 decoding. The decoded bytes are an argument. A payload that fails to decode is `None` and gives orientation 1, as the `catch` does.
- `Image` loading, `onload`/`onerror` and the 10-second `setTimeout`: these are browser events. Whichever fires first is an argument (`LoadEvent`). The race and the clearing of the timer are not modelled.
- Canvas allocation, `getContext` failure, `drawImage`, the smoothing flags and `toDataURL('image/jpeg', 0.95)`: these are browser effects and lossy encoding with no contract to state. Whether a context is obtained is a boolean argument. The model stops at the context calls and the draw size.
- The `catch` around drawing and encoding at utils/imageUtils.ts:150-153: it only wraps browser exceptions, which the model does not have.
- Floating point in `Math.min`, `Math.round`, the division and `Math.PI`: ratios are exact reals and rotations are whole quarter turns.
- `console.warn` in the reader's `catch`: logging only.
- `services/geminiService.ts`, the React components, the upload-size check and `types.ts`: network, UI and type declarations, outside this core.

## Findings

| source | as written | input that shows it | evidently intended | confidence | as-written member | corrected member |
|---|---|---|---|---|---|---|
| utils/imageUtils.ts:46-47 | The byte-order mark is read 6 octets after the APP1 length field, and the directory offset is taken from there | A standard Exif APP1 segment: "Exif", two NUL octets, then the TIFF header. The reader reads the NUL padding as a big-endian mark and reads 0x2A000800 ("II") or 0x002A0000 ("MM") as the offset. For "II" it runs past the end of any stream under about 704 MB and returns 1 whatever orientation is stored. For "MM" it does so when fewer than 0x2A0000 octets (about 2.75 MB) follow the header; in a longer stream it reads whatever octets lie at that offset as a directory | The TIFF header starts 8 octets after the length field | not executed | ExifSamples.GetOrientationMissesStandardExif, ExifSamples.GetOrientationReadsPastStandardExif, Optimizer.StandardPhotoDrawnUnrotated | ExifSamples.GetOrientationFixedReadsExif, Optimizer.StandardPhotoDrawnUnrotated |
