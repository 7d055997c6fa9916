/** The canvas transform `optimizeImage` sets up for each orientation, as a
    sequence of 2D context calls, and the placement the TIFF 6.0 Orientation
    tag (section 8 of TIFF 6.0) prescribes for the stored picture.  Angles
    are whole quarter turns and coordinates are exact reals. */
module Transform {
  import opened Geometry

  /** One 2D context call: `translate(dx, dy)`, `rotate(quarterTurns * PI / 2)`
      or `scale(sx, sy)`. */
  datatype Step = Translate(dx: int, dy: int) | Rotate(quarterTurns: int) | Scale(sx: int, sy: int)

  datatype Point = Point(x: real, y: real)

  /** The calls made for an orientation on a canvas of the given size, in
      call order; orientations other than 2 to 8 make no call. */
  function Plan(orientation: nat, canvas: Dimensions): (plan: seq<Step>)
    ensures plan == [] <==> !(2 <= orientation <= 8)
    ensures |plan| <= 3
  {
    var w, h := canvas.width as int, canvas.height as int;
    match orientation
    case 2 => [Translate(w, 0), Scale(-1, 1)]
    case 3 => [Translate(w, h), Rotate(2)]
    case 4 => [Translate(0, h), Scale(1, -1)]
    case 5 => [Rotate(1), Scale(1, -1)]
    case 6 => [Rotate(1), Translate(0, -w)]
    case 7 => [Rotate(1), Translate(h, -w), Scale(-1, 1)]
    case 8 => [Rotate(-1), Translate(-h, 0)]
    case _ => []
  }

  /** Where one call sends a point of the space drawn in.  A quarter turn
      takes the x axis onto the y axis. */
  function ApplyStep(step: Step, p: Point): Point
  {
    match step
    case Translate(dx, dy) => Point(p.x + dx as real, p.y + dy as real)
    case Scale(sx, sy) => Point(p.x * sx as real, p.y * sy as real)
    case Rotate(q) =>
      if q % 4 == 0 then p
      else if q % 4 == 1 then Point(-p.y, p.x)
      else if q % 4 == 2 then Point(-p.x, -p.y)
      else Point(p.y, -p.x)
  }

  /** Each call multiplies the current transform on the right, so the first
      call of the plan is applied last to a drawn point. */
  function Apply(plan: seq<Step>, p: Point): Point
  {
    if plan == [] then p else ApplyStep(plan[0], Apply(plan[1..], p))
  }

  /** The picture edge a stored row or column is shown along. */
  datatype Side = Top | Bottom | Left | Right

  /** Where row 0 of the stored picture is shown, per orientation value. */
  function RowSide(orientation: nat): Side
  {
    match orientation
    case 2 => Top
    case 3 => Bottom
    case 4 => Bottom
    case 5 => Left
    case 6 => Right
    case 7 => Right
    case 8 => Left
    case _ => Top
  }

  /** Where column 0 of the stored picture is shown, per orientation value. */
  function ColumnSide(orientation: nat): Side
  {
    match orientation
    case 2 => Right
    case 3 => Right
    case 4 => Left
    case 5 => Top
    case 6 => Top
    case 7 => Bottom
    case 8 => Bottom
    case _ => Left
  }

  /** A distance `t` from the given edge, along an extent of the given length. */
  function Along(side: Side, extent: nat, t: real): real
  {
    if side == Top || side == Left then t else extent as real - t
  }

  /** Where the TIFF orientation puts the stored point `p` (column `p.x`,
      row `p.y`) on a canvas: rows run down the canvas when row 0 is at the
      top or bottom, and across it when row 0 is at the left or right. */
  function Place(orientation: nat, canvas: Dimensions, p: Point): (q: Point)
    ensures Within(p, Upright(canvas, orientation)) ==> Within(q, canvas)
  {
    var row, column := RowSide(orientation), ColumnSide(orientation);
    if row == Top || row == Bottom then
      Point(Along(column, canvas.width, p.x), Along(row, canvas.height, p.y))
    else
      Point(Along(row, canvas.width, p.y), Along(column, canvas.height, p.x))
  }

  /** The stored point shown at canvas point `q`. */
  function Unplace(orientation: nat, canvas: Dimensions, q: Point): Point
  {
    var row, column := RowSide(orientation), ColumnSide(orientation);
    if row == Top || row == Bottom then
      Point(Along(column, canvas.width, q.x), Along(row, canvas.height, q.y))
    else
      Point(Along(column, canvas.height, q.y), Along(row, canvas.width, q.x))
  }

  predicate Within(p: Point, d: Dimensions)
  {
    0.0 <= p.x <= d.width as real && 0.0 <= p.y <= d.height as real
  }

  /** The context calls put every stored point where the TIFF orientation
      says it belongs. */
  lemma PlanMatchesTiffOrientation(orientation: nat, canvas: Dimensions, p: Point)
    ensures Apply(Plan(orientation, canvas), p) == Place(orientation, canvas, p)
  {
    var plan := Plan(orientation, canvas);
    if 2 <= orientation <= 8 {
      ApplyUnfolds(plan, p);
    }
  }

  /** A plan of two or three calls, written out. */
  lemma ApplyUnfolds(plan: seq<Step>, p: Point)
    requires 2 <= |plan| <= 3
    ensures |plan| == 2 ==> Apply(plan, p) == ApplyStep(plan[0], ApplyStep(plan[1], p))
    ensures |plan| == 3 ==>
              Apply(plan, p) == ApplyStep(plan[0], ApplyStep(plan[1], ApplyStep(plan[2], p)))
  {
    assert plan[1..][1..] == plan[2..];
    assert Apply(plan[1..], p) == ApplyStep(plan[1], Apply(plan[2..], p));
    if |plan| == 2 {
      assert plan[2..] == [];
    } else {
      assert plan[2..][1..] == [];
      assert Apply(plan[2..], p) == ApplyStep(plan[2], Apply([], p));
    }
  }

  /** Placement and its inverse undo each other. */
  lemma UnplacePlace(orientation: nat, canvas: Dimensions, p: Point, q: Point)
    ensures Unplace(orientation, canvas, Place(orientation, canvas, p)) == p
    ensures Place(orientation, canvas, Unplace(orientation, canvas, q)) == q
  {
  }

  /** The drawn rectangle, of the canvas size exchanged back for orientations
      5 to 8, is carried onto the canvas and covers all of it. */
  lemma PlanFillsCanvas(orientation: nat, canvas: Dimensions, p: Point, q: Point)
    ensures Within(p, Upright(canvas, orientation)) ==>
              Within(Apply(Plan(orientation, canvas), p), canvas)
    ensures Within(q, canvas) ==>
              && Within(Unplace(orientation, canvas, q), Upright(canvas, orientation))
              && Apply(Plan(orientation, canvas), Unplace(orientation, canvas, q)) == q
  {
    PlanMatchesTiffOrientation(orientation, canvas, p);
    PlanMatchesTiffOrientation(orientation, canvas, Unplace(orientation, canvas, q));
    UnplacePlace(orientation, canvas, p, q);
  }

  /** Orientation 1 and values outside 1 to 8 leave every point in place. */
  lemma IdentityOutsideTwoToEight(orientation: nat, canvas: Dimensions, p: Point)
    requires !(2 <= orientation <= 8)
    ensures Apply(Plan(orientation, canvas), p) == p
    ensures Place(orientation, canvas, p) == p
  {
  }
}
