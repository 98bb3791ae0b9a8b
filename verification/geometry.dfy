/** Plane vectors and the bounding of a sprite inside the game area. Float
    rounding plays no part in the properties of interest, so coordinates are
    reals. */
module Geometry {

  datatype Vec = Vec(x: real, y: real)

  /** `std::min(a, b)`: `b` when `b < a`, otherwise `a`. */
  function Min(a: real, b: real): (r: real)
    ensures r <= a && r <= b
    ensures r == a || r == b
  {
    if b < a then b else a
  }

  /** `std::max(a, b)`: `b` when `a < b`, otherwise `a`. */
  function Max(a: real, b: real): (r: real)
    ensures a <= r && b <= r
    ensures r == a || r == b
  {
    if a < b then b else a
  }

  /** One axis of the bound in `GameScene::update`: the coordinate `v` of a
      sprite of extent `size` is first capped by `extent - size/2`, then
      raised to at least `size/2`. Because `min` comes first, a sprite wider
      than the area ends up at `size/2`. */
  function ClampAxis(v: real, extent: real, size: real): (r: real)
    ensures size <= extent ==> size / 2.0 <= r <= extent - size / 2.0
    ensures extent < size ==> r == size / 2.0
    ensures size / 2.0 <= v <= extent - size / 2.0 ==> r == v
    ensures v > extent - size / 2.0 && size <= extent ==> r == extent - size / 2.0
    ensures v < size / 2.0 ==> r == size / 2.0
  {
    Max(Min(v, extent - size / 2.0), size / 2.0)
  }

  /** Bounding is idempotent: a bounded coordinate stays where it is. */
  lemma ClampAxisIdempotent(v: real, extent: real, size: real)
    ensures ClampAxis(ClampAxis(v, extent, size), extent, size) == ClampAxis(v, extent, size)
  {
    var once := ClampAxis(v, extent, size);
    if size <= extent {
      assert size / 2.0 <= once <= extent - size / 2.0;
    } else {
      assert once == size / 2.0;
    }
  }

  /** Both axes of the bound. */
  function Clamp(pos: Vec, area: Vec, size: Vec): (r: Vec)
    ensures size.x <= area.x ==> size.x / 2.0 <= r.x <= area.x - size.x / 2.0
    ensures size.y <= area.y ==> size.y / 2.0 <= r.y <= area.y - size.y / 2.0
    ensures (size.x / 2.0 <= pos.x <= area.x - size.x / 2.0 &&
             size.y / 2.0 <= pos.y <= area.y - size.y / 2.0) ==> r == pos
  {
    Vec(ClampAxis(pos.x, area.x, size.x), ClampAxis(pos.y, area.y, size.y))
  }

  lemma ClampIdempotent(pos: Vec, area: Vec, size: Vec)
    ensures Clamp(Clamp(pos, area, size), area, size) == Clamp(pos, area, size)
  {
    ClampAxisIdempotent(pos.x, area.x, size.x);
    ClampAxisIdempotent(pos.y, area.y, size.y);
  }
}
