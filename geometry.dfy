/** Plane arithmetic shared by both particle fields. */
module Geometry {

  /** `Math.abs`. */
  function Abs(v: real): (r: real)
    ensures r >= 0.0 && (r == v || r == -v)
  {
    if v < 0.0 then -v else v
  }

  /** The squared length of an offset: what the particle fields take the
      square root of before comparing a distance with a radius. */
  function SquaredLength(dx: real, dy: real): real {
    dx * dx + dy * dy
  }
}
