/** Tree silhouette multipliers ("shape ratio" of Weber and Penn, section 4.3),
    over real numbers instead of single-precision floats. */
module Shape {

  /** The value the source uses for pi. */
  const PI: real := 3.1415926535

  /** Multiplier for position `ratio` along the crown, selected by `shape`.
      Shapes 1 and 2 call the C library `sinf`, which is supplied as `sine`.
      Every id outside 0..7 falls through to 0. */
  function ShapeRatio(shape: int, ratio: real, sine: real -> real): (r: real)
    ensures shape == 3 ==> r == 1.0
    ensures (shape < 0 || 7 < shape) ==> r == 0.0
    ensures 0.0 <= ratio <= 1.0 ==>
      (shape == 0 ==> 0.2 <= r <= 1.0) &&
      (shape == 4 ==> 0.5 <= r <= 1.0) &&
      (shape == 5 ==> 0.0 <= r <= 1.0) &&
      (shape == 6 ==> 0.2 <= r <= 1.0) &&
      (shape == 7 ==> 0.5 <= r <= 1.0)
    ensures shape == 1 && 0.0 <= sine(PI * ratio) <= 1.0 ==> 0.2 <= r <= 1.0
    ensures shape == 2 && 0.0 <= sine(0.5 * PI * ratio) <= 1.0 ==> 0.2 <= r <= 1.0
  {
    if shape == 0 then 0.2 + 0.8 * ratio
    else if shape == 1 then 0.2 + 0.8 * sine(PI * ratio)
    else if shape == 2 then 0.2 + 0.8 * sine(0.5 * PI * ratio)
    else if shape == 3 then 1.0
    else if shape == 4 then 0.5 + 0.5 * ratio
    else if shape == 5 then
      if ratio <= 0.7 then ratio / 0.7 else (1.0 - ratio) / 0.3
    else if shape == 6 then 1.0 - 0.8 * ratio
    else if shape == 7 then
      if ratio <= 0.7 then 0.5 + 0.5 * ratio / 0.7 else 0.5 + 0.5 * (1.0 - ratio) / 0.3
    else 0.0
  }

  /** Only shapes 1 and 2 depend on the sine function that is supplied. */
  lemma ShapeRatioIgnoresSine(shape: int, ratio: real, sine1: real -> real, sine2: real -> real)
    requires shape != 1 && shape != 2
    ensures ShapeRatio(shape, ratio, sine1) == ShapeRatio(shape, ratio, sine2)
  {
  }

  /** Shapes 5 and 7 switch formula at 0.7, where both pieces reach their peak of 1:
      the two pieces agree there, so the silhouette is continuous. */
  lemma PeakAtSevenTenths(sine: real -> real)
    ensures ShapeRatio(5, 0.7, sine) == 1.0 && (1.0 - 0.7) / 0.3 == 1.0
    ensures ShapeRatio(7, 0.7, sine) == 1.0 && 0.5 + 0.5 * (1.0 - 0.7) / 0.3 == 1.0
  {
  }

  /** Shapes 5 and 7 rise up to 0.7 and fall after it, so 0.7 is their maximum. */
  lemma RiseThenFall(shape: int, a: real, b: real, sine: real -> real)
    requires shape == 5 || shape == 7
    requires a <= b
    ensures b <= 0.7 ==> ShapeRatio(shape, a, sine) <= ShapeRatio(shape, b, sine)
    ensures 0.7 <= a ==> ShapeRatio(shape, a, sine) >= ShapeRatio(shape, b, sine)
    ensures ShapeRatio(shape, a, sine) <= ShapeRatio(shape, 0.7, sine)
  {
  }

  /** Shapes 0 and 4 grow with the ratio, shape 6 shrinks. */
  lemma LinearShapesMonotone(a: real, b: real, sine: real -> real)
    requires a <= b
    ensures ShapeRatio(0, a, sine) <= ShapeRatio(0, b, sine)
    ensures ShapeRatio(4, a, sine) <= ShapeRatio(4, b, sine)
    ensures ShapeRatio(6, a, sine) >= ShapeRatio(6, b, sine)
  {
  }
}
