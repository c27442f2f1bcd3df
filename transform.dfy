/** The matrix algebra, points, polygons and images of the traversals, kept
    uninterpreted: a transform is the chain of operations that built it, a point
    is a local coordinate pair under a transform, and a warped image is known
    only by the transform it was cropped at. */
module Transforms {
  import opened Shape

  /** A 4x4 model matrix as a term: the identity, a rotation about the z axis,
      or a translation along the branch's local y axis. */
  datatype Transform =
    | Identity
    | Rotate(base: Transform, radians: real)
    | Translate(base: Transform, dy: real)

  /** The point `frame * (x, y, 0, 1)`. */
  datatype Vec = Vec(frame: Transform, x: real, y: real)

  /** One emitted polygon, its corners in emission order. */
  datatype Quad = Quad(p0: Vec, p1: Vec, p2: Vec, p3: Vec)

  /** The source image warped by the rotation extracted from `frame` and centred
      at the projection of the frame's origin. */
  datatype LocalImage = Warped(frame: Transform)

  /** Degrees to radians, as `angle / 180 * M_PI` in the source. */
  function Radians(degrees: real): (r: real)
    ensures degrees == 180.0 ==> r == PI
    ensures degrees < 0.0 <==> r < 0.0
  {
    degrees / 180.0 * PI
  }
}
