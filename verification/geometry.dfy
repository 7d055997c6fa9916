/** The size computation of `optimizeImage`: the upright size of the decoded
    picture (width and height exchanged for orientations 5 to 8), the scale
    factor `min(MAX_DIMENSION / w, MAX_DIMENSION / h, 1)` and the rounded
    canvas size.  The scale is an exact real and `Math.round` is
    `Floor(x + 0.5)`. */
module Geometry {

  const MAX_DIMENSION: nat := 2048

  datatype Dimensions = Dimensions(width: nat, height: nat)

  predicate NonEmpty(d: Dimensions)
  {
    d.width > 0 && d.height > 0
  }

  /** Orientations 5 to 8 store the picture turned by a quarter turn. */
  predicate QuarterTurned(orientation: nat)
  {
    5 <= orientation <= 8
  }

  /** The size with width and height exchanged for a quarter-turned orientation. */
  function Upright(d: Dimensions, orientation: nat): Dimensions
  {
    if QuarterTurned(orientation) then Dimensions(d.height, d.width) else d
  }

  /** Exchanging twice gives back the stored size: the draw size of the
      source is the canvas size exchanged back. */
  lemma UprightTwice(d: Dimensions, orientation: nat)
    ensures Upright(Upright(d, orientation), orientation) == d
    ensures NonEmpty(Upright(d, orientation)) <==> NonEmpty(d)
  {
  }

  /** `n` is the integer nearest to `x`, halves going up. */
  predicate RoundsTo(x: real, n: int)
  {
    n as real - 0.5 <= x < n as real + 0.5
  }

  /** `Math.round` on an exact value: the one integer `x` rounds to. */
  function Round(x: real): (n: int)
    ensures RoundsTo(x, n)
  {
    FloorRounds(x);
    var n :| RoundsTo(x, n);
    n
  }

  lemma FloorRounds(x: real)
    ensures RoundsTo(x, (x + 0.5).Floor)
  {
  }

  /** `Math.round(x)` is `Math.floor(x + 0.5)`. */
  lemma RoundIsFloor(x: real)
    ensures Round(x) == (x + 0.5).Floor
  {
    FloorRounds(x);
  }

  function Min(a: real, b: real): real
  {
    if a <= b then a else b
  }

  /** A length multiplied by a factor. */
  function Scaled(x: real, k: real): real
  {
    x * k
  }

  /** Multiplying by the factor 1 keeps a length. */
  lemma ScaleByOne(x: real)
    ensures Scaled(x, 1.0) == x
  {
  }

  /** A factor of at most 1 does not enlarge a non-negative length, and a
      factor below 1 shrinks a positive one. */
  lemma ScaleShrinks(x: real, k: real)
    requires 0.0 <= x && 0.0 <= k <= 1.0
    ensures 0.0 <= Scaled(x, k) <= x
    ensures x > 0.0 && k < 1.0 ==> Scaled(x, k) < x
  {
    assert x - x * k == x * (1.0 - k);
    ProductSign(x, k);
    ProductSign(x, 1.0 - k);
  }

  /** The product of non-negative reals is non-negative, and of positive ones positive. */
  lemma ProductSign(a: real, b: real)
    requires 0.0 <= a && 0.0 <= b
    ensures 0.0 <= a * b
    ensures 0.0 < a && 0.0 < b ==> 0.0 < a * b
  {
  }

  /** Scaling by a common non-negative factor keeps the order. */
  lemma ScaleMonotone(a: real, b: real, k: real)
    requires a <= b && 0.0 <= k
    ensures Scaled(a, k) <= Scaled(b, k)
  {
    assert b * k - a * k == (b - a) * k;
    ProductSign(b - a, k);
  }

  /** A factor of at most `m / x` takes `x` to at most `m`, and exactly
      `m / x` takes it onto `m`. */
  lemma ScaleBelow(x: real, k: real, m: real)
    requires x > 0.0 && 0.0 <= k <= m / x
    ensures Scaled(x, k) <= m
    ensures k == m / x ==> Scaled(x, k) == m
  {
    ScaleMonotone(k, m / x, x);
    assert x * (m / x) == m;
  }

  /** `Math.min(MAX_DIMENSION / w, MAX_DIMENSION / h, 1)`: the largest factor
      of at most 1 that brings both sides within the maximum. */
  function Ratio(d: Dimensions): (k: real)
    requires NonEmpty(d)
    ensures 0.0 < k <= 1.0
    ensures Scaled(d.width as real, k) <= MAX_DIMENSION as real
    ensures Scaled(d.height as real, k) <= MAX_DIMENSION as real
    ensures || k == 1.0
            || Scaled(d.width as real, k) == MAX_DIMENSION as real
            || Scaled(d.height as real, k) == MAX_DIMENSION as real
  {
    var w, h, m := d.width as real, d.height as real, MAX_DIMENSION as real;
    var k := Min(Min(m / w, m / h), 1.0);
    ScaleBelow(w, k, m);
    ScaleBelow(h, k, m);
    k
  }

  /** Rounding a length in `[0, bound]` gives a whole number in `[0, bound]`. */
  function RoundWithin(x: real, bound: nat): (n: nat)
    requires 0.0 <= x <= bound as real
    ensures n <= bound
    ensures x - 0.5 < n as real <= x + 0.5
  {
    Round(x)
  }

  /** One side of the canvas: the scaled side `x` rounded, never more than the
      side it was scaled from nor more than `MAX_DIMENSION`. */
  function RoundSide(x: real, side: nat): (n: nat)
    requires 0.0 <= x <= side as real && x <= MAX_DIMENSION as real
    ensures n <= side && n <= MAX_DIMENSION
    ensures x - 0.5 < n as real <= x + 0.5
  {
    RoundWithin(x, if side <= MAX_DIMENSION then side else MAX_DIMENSION)
  }

  /** The canvas size `optimizeImage` computes for a decoded picture: within
      `MAX_DIMENSION` on both sides, never larger than the upright source,
      and each side within half a pixel of the upright side times one common
      factor. */
  function TargetSize(source: Dimensions, orientation: nat): (t: Dimensions)
    requires NonEmpty(source)
    ensures t.width <= MAX_DIMENSION && t.height <= MAX_DIMENSION
    ensures t.width <= Upright(source, orientation).width
    ensures t.height <= Upright(source, orientation).height
    ensures var u := Upright(source, orientation);
            var w, h := Scaled(u.width as real, Ratio(u)), Scaled(u.height as real, Ratio(u));
            && w - 0.5 < t.width as real <= w + 0.5
            && h - 0.5 < t.height as real <= h + 0.5
  {
    var u := Upright(source, orientation);
    var k := Ratio(u);
    ScaleShrinks(u.width as real, k);
    ScaleShrinks(u.height as real, k);
    Dimensions(RoundSide(Scaled(u.width as real, k), u.width),
               RoundSide(Scaled(u.height as real, k), u.height))
  }

  /** A size that already fits needs no scaling. */
  lemma RatioOfFitting(d: Dimensions)
    requires NonEmpty(d) && d.width <= MAX_DIMENSION && d.height <= MAX_DIMENSION
    ensures Ratio(d) == 1.0
  {
    var k := Ratio(d);
    if k < 1.0 {
      ScaleShrinks(d.width as real, k);
      ScaleShrinks(d.height as real, k);
      assert false;
    }
  }

  /** A picture whose upright size already fits is kept at that size; in
      particular orientation 1 then keeps the decoded size. */
  lemma FittingSizeKept(source: Dimensions, orientation: nat)
    requires NonEmpty(source)
    requires Upright(source, orientation).width <= MAX_DIMENSION
    requires Upright(source, orientation).height <= MAX_DIMENSION
    ensures TargetSize(source, orientation) == Upright(source, orientation)
  {
    var u := Upright(source, orientation);
    RatioOfFitting(u);
    ScaleByOne(u.width as real);
    ScaleByOne(u.height as real);
  }

  /** A size too large in either direction is scaled down. */
  lemma RatioOfOversized(d: Dimensions)
    requires NonEmpty(d) && (d.width > MAX_DIMENSION || d.height > MAX_DIMENSION)
    ensures Ratio(d) < 1.0
  {
  }

  /** A picture larger than the maximum is brought down so that its longer
      upright side is exactly `MAX_DIMENSION`. */
  lemma LongerSideMeetsMax(source: Dimensions, orientation: nat)
    requires NonEmpty(source)
    requires Upright(source, orientation).width > MAX_DIMENSION
          || Upright(source, orientation).height > MAX_DIMENSION
    ensures var u, t := Upright(source, orientation), TargetSize(source, orientation);
            && (u.width >= u.height ==> t.width == MAX_DIMENSION)
            && (u.height >= u.width ==> t.height == MAX_DIMENSION)
  {
    var u := Upright(source, orientation);
    var k := Ratio(u);
    var w, h := u.width as real, u.height as real;
    RatioOfOversized(u);
    if u.width >= u.height {
      ScaleMonotone(h, w, k);
      ScaleShrinks(h, k);
    }
    if u.height >= u.width {
      ScaleMonotone(w, h, k);
      ScaleShrinks(w, k);
    }
  }

  /** Landscape stays landscape, portrait stays portrait and a square stays
      square, in upright terms. */
  lemma ShapeKept(source: Dimensions, orientation: nat)
    requires NonEmpty(source)
    ensures var u, t := Upright(source, orientation), TargetSize(source, orientation);
            && (u.width >= u.height ==> t.width >= t.height)
            && (u.height >= u.width ==> t.height >= t.width)
  {
    var u := Upright(source, orientation);
    var k := Ratio(u);
    var w, h := u.width as real, u.height as real;
    if u.width >= u.height {
      ScaleMonotone(h, w, k);
    }
    if u.height >= u.width {
      ScaleMonotone(w, h, k);
    }
  }

  /** A 4000 by 3000 picture with orientation 6 gets a 1536 by 2048 canvas. */
  lemma PortraitPhotoExample()
    ensures TargetSize(Dimensions(4000, 3000), 6) == Dimensions(1536, 2048)
  {
    var u := Upright(Dimensions(4000, 3000), 6);
    assert u == Dimensions(3000, 4000);
    assert Ratio(u) == 2048.0 / 4000.0;
  }

  /** Nothing keeps a side at 1 pixel or more: a 1 by 5000 picture gets a
      canvas 0 pixels wide. */
  lemma ThinPictureLosesWidth()
    ensures TargetSize(Dimensions(1, 5000), 1).width == 0
  {
    assert Ratio(Dimensions(1, 5000)) == 2048.0 / 5000.0;
  }
}
