/** The decisions `optimizeImage` takes before and around drawing: which
    inputs are rejected and why, and, for a picture that is drawn, the
    orientation read, the canvas size, the draw size and the context calls.
    The browser's image decoding, its events and the canvas itself appear
    only as the outcomes they hand to this logic. */
module Optimizer {
  import opened Bytes
  import Exif
  import ExifSamples
  import opened Geometry
  import opened Transform

  /** The argument of `optimizeImage`: a string, or a value of any other type. */
  datatype Input = Text(text: string) | NotText

  /** Whichever of the image's `load` and `error` events and the 10-second
      timer fires first; a load reports the decoded size. */
  datatype LoadEvent = Loaded(size: Dimensions) | LoadError | TimedOut

  /** The reasons the returned promise is rejected with. */
  datatype Failure = InvalidInput | LoadFailed | LoadTimedOut | EmptyImage | NoContext

  /** What is drawn: the orientation read, the canvas size, the size the
      picture is drawn at in the transformed space, and the context calls. */
  datatype Render = Render(orientation: nat, canvas: Dimensions, draw: Dimensions, plan: seq<Step>)

  datatype Outcome = Drawn(render: Render) | Rejected(failure: Failure)

  /** A non-empty string; an empty string is falsy and rejected like a non-string. */
  predicate ValidInput(input: Input)
  {
    input.Text? && input.text != []
  }

  /** The orientation read from the decoded bytes by the reader with the
      given header gap: `Exif.WRITTEN_GAP` is `getOrientation` as written,
      `Exif.STANDARD_GAP` the corrected reader.  A payload that does not
      decode falls into the reader's `catch` and counts as orientation 1. */
  function OrientationOf(decoded: Option<seq<byte>>, gap: nat): (r: nat)
    ensures r < U16_LIMIT
    ensures decoded.None? ==> r == Exif.DEFAULT_ORIENTATION
    ensures decoded.Some? && !Exif.StartsWithSoi(decoded.value) ==> r == Exif.DEFAULT_ORIENTATION
  {
    match decoded
    case None => Exif.DEFAULT_ORIENTATION
    case Some(bytes) => Exif.Orientation(bytes, gap)
  }

  /** The sizes and calls for a decoded picture of a non-empty size. */
  function Prepare(orientation: nat, size: Dimensions): (d: Render)
    requires NonEmpty(size)
    ensures d.orientation == orientation
    ensures d.canvas.width <= MAX_DIMENSION && d.canvas.height <= MAX_DIMENSION
    ensures Upright(d.draw, orientation) == d.canvas
    ensures d.draw.width <= size.width && d.draw.height <= size.height
    ensures d.plan == [] <==> !(2 <= orientation <= 8)
  {
    var canvas := TargetSize(size, orientation);
    UprightTwice(size, orientation);
    UprightTwice(canvas, orientation);
    Render(orientation, canvas, Upright(canvas, orientation), Plan(orientation, canvas))
  }

  /** `optimizeImage` for the given argument, the bytes its payload decodes
      to, the first image event, and whether a 2D context is obtained; the
      orientation is read with header gap `gap` (`Exif.WRITTEN_GAP` as in
      the source, `Exif.STANDARD_GAP` for the corrected pipeline). */
  function OptimizeImage(input: Input, decoded: Option<seq<byte>>, event: LoadEvent, context: bool, gap: nat): (r: Outcome)
    ensures r == Rejected(InvalidInput) <==> !ValidInput(input)
    ensures r == Rejected(LoadTimedOut) <==> ValidInput(input) && event.TimedOut?
    ensures r == Rejected(LoadFailed) <==> ValidInput(input) && event.LoadError?
    ensures r == Rejected(EmptyImage) <==> ValidInput(input) && event.Loaded? && !NonEmpty(event.size)
    ensures r == Rejected(NoContext) <==>
              ValidInput(input) && event.Loaded? && NonEmpty(event.size) && !context
    ensures r.Drawn? <==> ValidInput(input) && event.Loaded? && NonEmpty(event.size) && context
    ensures r.Drawn? ==> r.render.orientation == OrientationOf(decoded, gap)
    ensures r.Drawn? ==> r.render.canvas == TargetSize(event.size, r.render.orientation)
  {
    if !ValidInput(input) then Rejected(InvalidInput)
    else
      var orientation := OrientationOf(decoded, gap);
      match event
      case TimedOut => Rejected(LoadTimedOut)
      case LoadError => Rejected(LoadFailed)
      case Loaded(size) =>
        if size.width == 0 || size.height == 0 then Rejected(EmptyImage)
        else if !context then Rejected(NoContext)
        else Drawn(Prepare(orientation, size))
  }

  /** A drawn picture: the canvas fits, the picture is never drawn larger
      than it was decoded, and a picture that already fits is drawn at its
      own size. */
  lemma DrawnSizes(input: Input, decoded: Option<seq<byte>>, event: LoadEvent, context: bool, gap: nat)
    requires OptimizeImage(input, decoded, event, context, gap).Drawn?
    ensures var d := OptimizeImage(input, decoded, event, context, gap).render;
            && d.canvas.width <= MAX_DIMENSION && d.canvas.height <= MAX_DIMENSION
            && d.draw.width <= event.size.width && d.draw.height <= event.size.height
            && Upright(d.draw, d.orientation) == d.canvas
            && (event.size.width <= MAX_DIMENSION && event.size.height <= MAX_DIMENSION ==>
                  d.draw == event.size)
  {
    var d := OptimizeImage(input, decoded, event, context, gap).render;
    if event.size.width <= MAX_DIMENSION && event.size.height <= MAX_DIMENSION {
      FittingSizeKept(event.size, d.orientation);
      UprightTwice(event.size, d.orientation);
    }
  }

  /** The drawn rectangle is carried onto the canvas and covers it, with
      every point where the TIFF orientation puts it. */
  lemma DrawnCoversCanvas(input: Input, decoded: Option<seq<byte>>, event: LoadEvent, context: bool, gap: nat, p: Point, q: Point)
    requires OptimizeImage(input, decoded, event, context, gap).Drawn?
    ensures var d := OptimizeImage(input, decoded, event, context, gap).render;
            && Apply(d.plan, p) == Place(d.orientation, d.canvas, p)
            && (Within(p, d.draw) ==> Within(Apply(d.plan, p), d.canvas))
            && (Within(q, d.canvas) ==> exists s :: Within(s, d.draw) && Apply(d.plan, s) == q)
  {
    var d := OptimizeImage(input, decoded, event, context, gap).render;
    PlanMatchesTiffOrientation(d.orientation, d.canvas, p);
    PlanFillsCanvas(d.orientation, d.canvas, p, q);
    if Within(q, d.canvas) {
      var s := Unplace(d.orientation, d.canvas, q);
      assert Within(s, d.draw) && Apply(d.plan, s) == q;
    }
  }

  /** A standard Exif photo (the TIFF header two NUL octets after "Exif")
      storing orientation `value`, followed by image data `rest` that does
      not reach the misread directory offset: `optimizeImage` as written
      reads orientation 1, so it makes no context call and sizes the canvas
      from the stored width and height, while the corrected pipeline uses
      `value`.  (A longer "MM" stream is read at that offset instead; see
      `ExifSamples.GetOrientationReadsPastStandardExif`.) */
  lemma StandardPhotoDrawnUnrotated(input: Input, prefix: seq<ExifSamples.Segment>, value: nat, little: bool,
                                    rest: seq<byte>, event: LoadEvent, context: bool)
    requires ValidInput(input) && event.Loaded? && NonEmpty(event.size) && context
    requires ExifSamples.AllSkippable(prefix) && value < U16_LIMIT
    requires ExifSamples.TIFF_SIZE + |rest| < ExifSamples.MisreadOffset(little)
    ensures var decoded := Some(ExifSamples.Jpeg(prefix, ExifSamples.App1Segment(
                                  ExifSamples.Tiff(Exif.ORIENTATION_TAG, value, little), 2) + rest));
            var asWritten := OptimizeImage(input, decoded, event, context, Exif.WRITTEN_GAP).render;
            var corrected := OptimizeImage(input, decoded, event, context, Exif.STANDARD_GAP).render;
            && asWritten.orientation == Exif.DEFAULT_ORIENTATION
            && asWritten.plan == []
            && asWritten.canvas == TargetSize(event.size, Exif.DEFAULT_ORIENTATION)
            && corrected.orientation == value
  {
    ExifSamples.GetOrientationMissesStandardExif(prefix, value, little, rest);
    ExifSamples.GetOrientationFixedReadsExif(prefix, value, little, rest);
  }
}
