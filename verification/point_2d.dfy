/** Integer grid positions. Coordinates are signed: rasterizers step through
    negative positions, and buffers ignore anything outside their grid. */
module Points {

  datatype Point = Point(x: int, y: int)

  function New(x: int, y: int): Point
  {
    Point(x, y)
  }

  /** The origin. */
  function Empty(): Point
  {
    Point(0, 0)
  }

  function Add(p: Point, q: Point): Point
  {
    Point(p.x + q.x, p.y + q.y)
  }

  /** Componentwise difference: the `sub` that `stroke_ellipse_from_center`
      and `fill_ellipse_from_center` call to anchor a shape on its centre.
      point_2d.rs itself does not define it. */
  function Sub(p: Point, q: Point): Point
  {
    Point(p.x - q.x, p.y - q.y)
  }

  function AddX(p: Point, dx: int): Point
  {
    Point(p.x + dx, p.y)
  }

  function AddY(p: Point, dy: int): Point
  {
    Point(p.x, p.y + dy)
  }

  predicate EqualTo(p: Point, q: Point)
  {
    p.x == q.x && p.y == q.y
  }

  predicate IsEmpty(p: Point)
  {
    p.x == 0 && p.y == 0
  }

  lemma AddIsCommutativeWithIdentity(p: Point, q: Point)
    ensures Add(p, q) == Add(q, p)
    ensures Add(p, Empty()) == p && Add(Empty(), p) == p
    ensures Add(p, q).x == p.x + q.x && Add(p, q).y == p.y + q.y
  {
  }

  /** Shifting one axis leaves the other alone, and the two shifts compose to `Add`. */
  lemma AddAxisSeparately(p: Point, a: int, b: int)
    ensures AddX(p, a).y == p.y && AddX(p, a).x == p.x + a
    ensures AddY(p, b).x == p.x && AddY(p, b).y == p.y + b
    ensures AddY(AddX(p, a), b) == Add(p, New(a, b))
    ensures Sub(Add(p, New(a, b)), New(a, b)) == p
  {
  }

  lemma EqualToIsEquality(p: Point, q: Point)
    ensures EqualTo(p, q) <==> p == q
    ensures EqualTo(p, p)
    ensures EqualTo(p, q) <==> EqualTo(q, p)
  {
  }

  lemma IsEmptyIffOrigin(p: Point)
    ensures IsEmpty(p) <==> p == Empty()
    ensures IsEmpty(Empty())
  {
  }
}
