/** The integer line rasterizer behind `Canvas::line_to`: an all-octant
    Bresenham walk from the pen to the target. Each loop pass hands the
    current position to the paint and then steps x, y or both one cell toward
    the target; the loop stops AT the target, so the target itself is never
    painted (a chain of lines paints each joint once, as the first point of
    the next segment). */
module LineRaster {
  import opened Points
  import opened Rasters

  /** Loop constants: the target, dx = |x1-x0|, dy = -|y1-y0| and the step signs. */
  datatype LineParams = LineParams(x1: int, y1: int, dx: nat, dy: int, sx: int, sy: int)

  /** Loop variables: the current position and the error term. */
  datatype LineState = LineState(x: int, y: int, err: int)

  /** The loop invariant. With rx, ry the distances still to go on each axis,
      the error term is dx + dy - dy*rx - dx*ry; the position never passes the
      target on either axis. */
  predicate Inv(c: LineParams, s: LineState)
  {
    && c.dy <= 0
    && (c.sx == 1 || c.sx == -1) && (c.sy == 1 || c.sy == -1)
    && (if c.sx == 1 then s.x <= c.x1 else c.x1 <= s.x)
    && (if c.sy == 1 then s.y <= c.y1 else c.y1 <= s.y)
    && Abs(c.x1 - s.x) <= c.dx && Abs(c.y1 - s.y) <= -c.dy
    && s.err == c.dx + c.dy - Mul(c.dy, Abs(c.x1 - s.x)) - Mul(c.dx, Abs(c.y1 - s.y))
  }

  function Params(from: Point, to: Point): LineParams
  {
    LineParams(to.x, to.y, Abs(to.x - from.x), -(Abs(to.y - from.y) as int),
               if from.x < to.x then 1 else -1, if from.y < to.y then 1 else -1)
  }

  function Initial(from: Point, to: Point): LineState
  {
    LineState(from.x, from.y, Abs(to.x - from.x) - Abs(to.y - from.y))
  }

  /** One pass of the loop after painting: the two independent error tests. */
  function Step(c: LineParams, s: LineState): LineState
  {
    var e2 := 2 * s.err;
    var s1 := if e2 >= c.dy then LineState(s.x + c.sx, s.y, s.err + c.dy) else s;
    if e2 <= c.dx then LineState(s1.x, s1.y + c.sy, s1.err + c.dx) else s1
  }

  function Distance(c: LineParams, s: LineState): nat
  {
    Abs(c.x1 - s.x) + Abs(c.y1 - s.y)
  }

  /** The error term never lets the walk step past the target on an axis
      that is already done, and always lets it step on some axis. */
  lemma NoOvershoot(c: LineParams, s: LineState)
    requires Inv(c, s) && (s.x != c.x1 || s.y != c.y1)
    ensures s.x == c.x1 ==> 2 * s.err < c.dy
    ensures s.y == c.y1 ==> 2 * s.err > c.dx
    ensures 2 * s.err >= c.dy || 2 * s.err <= c.dx
  {
    var rx, ry := Abs(c.x1 - s.x), Abs(c.y1 - s.y);
    if rx == 0 {
      assert Mul(c.dx, ry) == Mul(c.dx, ry - 1) + c.dx;
    }
    if ry == 0 {
      assert Mul(c.dy, rx) == Mul(c.dy, rx - 1) + c.dy;
    }
  }

  /** Two cells are 8-neighbours: distinct, and at most one apart per axis. */
  predicate Adjacent(p: Point, q: Point)
  {
    p != q && Abs(p.x - q.x) <= 1 && Abs(p.y - q.y) <= 1
  }

  predicate InBox(p: Point, a: Point, b: Point)
  {
    (a.x <= p.x <= b.x || b.x <= p.x <= a.x) && (a.y <= p.y <= b.y || b.y <= p.y <= a.y)
  }

  lemma StepX(c: LineParams, s: LineState)
    requires Inv(c, s) && s.x != c.x1
    ensures var s' := LineState(s.x + c.sx, s.y, s.err + c.dy);
      && Inv(c, s')
      && Abs(c.x1 - s'.x) == Abs(c.x1 - s.x) - 1
      && Distance(c, s') == Distance(c, s) - 1
      && InBox(Point(s'.x, s'.y), Point(s.x, s.y), Point(c.x1, c.y1))
  {
    var rx := Abs(c.x1 - s.x);
    assert Mul(c.dy, rx) == Mul(c.dy, rx - 1) + c.dy;
  }

  lemma StepY(c: LineParams, s: LineState)
    requires Inv(c, s) && s.y != c.y1
    ensures var s' := LineState(s.x, s.y + c.sy, s.err + c.dx);
      && Inv(c, s')
      && Abs(c.y1 - s'.y) == Abs(c.y1 - s.y) - 1
      && Distance(c, s') == Distance(c, s) - 1
      && InBox(Point(s'.x, s'.y), Point(s.x, s.y), Point(c.x1, c.y1))
  {
    var ry := Abs(c.y1 - s.y);
    assert Mul(c.dx, ry) == Mul(c.dx, ry - 1) + c.dx;
  }

  /** A diagonal pass: a step on x followed by a step on y. */
  lemma StepXY(c: LineParams, s: LineState)
    requires Inv(c, s) && s.x != c.x1 && s.y != c.y1
    ensures var s' := LineState(s.x + c.sx, s.y + c.sy, s.err + c.dy + c.dx);
      && Inv(c, s')
      && Distance(c, s') < Distance(c, s)
      && InBox(Point(s'.x, s'.y), Point(s.x, s.y), Point(c.x1, c.y1))
  {
    var s1 := LineState(s.x + c.sx, s.y, s.err + c.dy);
    StepX(c, s);
    StepY(c, s1);
    InBoxShrink(Point(s.x + c.sx, s.y + c.sy), Point(s.x, s.y), Point(s1.x, s1.y), Point(c.x1, c.y1));
  }

  /** A pass keeps the invariant and moves one cell on each axis at most,
      toward the target on at least one of them. */
  lemma StepKeepsInv(c: LineParams, s: LineState)
    requires Inv(c, s) && (s.x != c.x1 || s.y != c.y1)
    ensures Inv(c, Step(c, s))
    ensures Distance(c, Step(c, s)) < Distance(c, s)
    ensures Abs(Step(c, s).x - s.x) <= 1 && Abs(Step(c, s).y - s.y) <= 1
    ensures InBox(Point(Step(c, s).x, Step(c, s).y), Point(s.x, s.y), Point(c.x1, c.y1))
  {
    NoOvershoot(c, s);
    var e2 := 2 * s.err;
    if e2 >= c.dy && e2 <= c.dx {
      assert Step(c, s) == LineState(s.x + c.sx, s.y + c.sy, s.err + c.dy + c.dx);
      StepXY(c, s);
    } else if e2 >= c.dy {
      assert Step(c, s) == LineState(s.x + c.sx, s.y, s.err + c.dy);
      StepX(c, s);
    } else {
      assert Step(c, s) == LineState(s.x, s.y + c.sy, s.err + c.dx);
      StepY(c, s);
    }
  }

  /** The positions handed to the paint, from state `s` until the target. */
  function Trace(c: LineParams, s: LineState): seq<Point>
    requires Inv(c, s)
    decreases Distance(c, s)
  {
    if s.x == c.x1 && s.y == c.y1 then []
    else
      StepKeepsInv(c, s);
      [Point(s.x, s.y)] + Trace(c, Step(c, s))
  }

  lemma InitialInv(from: Point, to: Point)
    ensures Inv(Params(from, to), Initial(from, to))
  {
    var c, s := Params(from, to), Initial(from, to);
    assert Abs(c.x1 - s.x) == c.dx && Abs(c.y1 - s.y) == -c.dy;
    MulIsProduct(c.dy, c.dx);
    MulIsProduct(c.dx, -c.dy);
    assert c.dx * (-c.dy) == -(c.dy * c.dx);
  }

  /** The cells `line_to` paints going from `from` to `to`, in painting order. */
  function Line(from: Point, to: Point): seq<Point>
  {
    InitialInv(from, to);
    Trace(Params(from, to), Initial(from, to))
  }

  // ---------------------------------------------------------------------------
  // Properties

  /** One unfolding of the trace, with what a pass guarantees. */
  lemma TraceUnfold(c: LineParams, s: LineState)
    requires Inv(c, s)
    ensures var t := Trace(c, s);
      && (|t| == 0 <==> (s.x == c.x1 && s.y == c.y1))
      && (|t| > 0 ==> Inv(c, Step(c, s)) && t == [Point(s.x, s.y)] + Trace(c, Step(c, s)))
  {
    if s.x != c.x1 || s.y != c.y1 {
      StepKeepsInv(c, s);
    }
  }

  /** A cell inside the box from a later state to the target is inside the
      box from the earlier state too. */
  lemma InBoxShrink(p: Point, a: Point, a': Point, b: Point)
    requires InBox(a', a, b) && InBox(p, a', b)
    ensures InBox(p, a, b)
  {
  }

  /** The i-th painted cell lies in the box from the state to the target and
      is at least i steps closer to the target. */
  lemma {:induction false} TraceAt(c: LineParams, s: LineState, i: nat)
    requires Inv(c, s) && i < |Trace(c, s)|
    ensures InBox(Trace(c, s)[i], Point(s.x, s.y), Point(c.x1, c.y1))
    ensures Abs(c.x1 - Trace(c, s)[i].x) + Abs(c.y1 - Trace(c, s)[i].y) <= Distance(c, s) - i
    decreases i
  {
    TraceUnfold(c, s);
    if i > 0 {
      var s' := Step(c, s);
      StepKeepsInv(c, s);
      var t, t' := Trace(c, s), Trace(c, s');
      assert t == [Point(s.x, s.y)] + t';
      var p := t[i];
      assert p == t'[i - 1];
      TraceAt(c, s', i - 1);
      assert Abs(c.x1 - p.x) + Abs(c.y1 - p.y) <= Distance(c, s') - (i - 1);
      InBoxShrink(p, Point(s.x, s.y), Point(s'.x, s'.y), Point(c.x1, c.y1));
    }
  }

  lemma TraceInBox(c: LineParams, s: LineState)
    requires Inv(c, s)
    ensures var t := Trace(c, s);
      forall i :: 0 <= i < |t| ==> InBox(t[i], Point(s.x, s.y), Point(c.x1, c.y1))
  {
    var t := Trace(c, s);
    forall i | 0 <= i < |t|
      ensures InBox(t[i], Point(s.x, s.y), Point(c.x1, c.y1))
    {
      TraceAt(c, s, i);
    }
  }

  /** Consecutive painted cells are 8-neighbours. */
  lemma {:induction false} AdjacentAt(c: LineParams, s: LineState, i: nat)
    requires Inv(c, s) && i + 1 < |Trace(c, s)|
    ensures Adjacent(Trace(c, s)[i], Trace(c, s)[i + 1])
    decreases i
  {
    TraceUnfold(c, s);
    var s' := Step(c, s);
    StepKeepsInv(c, s);
    TraceUnfold(c, s');
    assert Trace(c, s)[i + 1] == Trace(c, s')[i];
    if i > 0 {
      assert Trace(c, s)[i] == Trace(c, s')[i - 1];
      AdjacentAt(c, s', i - 1);
    }
  }

  /** The last painted cell is an 8-neighbour of the target. */
  lemma {:induction false} LastAdjacent(c: LineParams, s: LineState)
    requires Inv(c, s) && |Trace(c, s)| > 0
    ensures Adjacent(Trace(c, s)[|Trace(c, s)| - 1], Point(c.x1, c.y1))
    decreases Distance(c, s)
  {
    TraceUnfold(c, s);
    var s' := Step(c, s);
    StepKeepsInv(c, s);
    TraceUnfold(c, s');
    if |Trace(c, s')| > 0 {
      LastAdjacent(c, s');
      assert Trace(c, s)[|Trace(c, s)| - 1] == Trace(c, s')[|Trace(c, s')| - 1];
    }
  }

  lemma TraceAdjacent(c: LineParams, s: LineState)
    requires Inv(c, s)
    ensures var t := Trace(c, s);
      && (forall i :: 0 <= i < |t| - 1 ==> Adjacent(t[i], t[i + 1]))
      && (|t| > 0 ==> Adjacent(t[|t| - 1], Point(c.x1, c.y1)))
  {
    var t := Trace(c, s);
    forall i | 0 <= i < |t| - 1
      ensures Adjacent(t[i], t[i + 1])
    {
      AdjacentAt(c, s, i);
    }
    if |t| > 0 {
      LastAdjacent(c, s);
    }
  }

  /** The start is painted first, and nothing is painted when pen and target coincide. */
  lemma LineStartsAtPen(from: Point, to: Point)
    ensures |Line(from, to)| == 0 <==> from == to
    ensures from != to ==> Line(from, to)[0] == from
  {
    InitialInv(from, to);
    TraceUnfold(Params(from, to), Initial(from, to));
  }

  /** Every painted cell is strictly closer to the target than the one before,
      so no cell is painted twice and the target itself never is. */
  lemma LineNeverPaintsTargetOrRepeats(from: Point, to: Point)
    ensures to !in Line(from, to)
    ensures Distinct(Line(from, to))
  {
    InitialInv(from, to);
    var c, s := Params(from, to), Initial(from, to);
    var t := Line(from, to);
    forall i, j | 0 <= i < j < |t|
      ensures t[i] != t[j]
    {
      StrictlyCloser(c, s, i, j);
    }
    if to in t {
      var i :| 0 <= i < |t| && t[i] == to;
      StrictlyCloser(c, s, i, |t|);
    }
  }

  lemma {:induction false} StrictlyCloser(c: LineParams, s: LineState, i: nat, j: nat)
    requires Inv(c, s) && i < j <= |Trace(c, s)|
    ensures j < |Trace(c, s)| ==> Trace(c, s)[i] != Trace(c, s)[j]
    ensures Trace(c, s)[i] != Point(c.x1, c.y1)
    decreases i
  {
    TraceUnfold(c, s);
    if i == 0 {
      if j < |Trace(c, s)| {
        TraceAt(c, s, j);
      }
    } else {
      var s' := Step(c, s);
      StepKeepsInv(c, s);
      assert Trace(c, s)[i] == Trace(c, s')[i - 1];
      if j < |Trace(c, s)| {
        assert Trace(c, s)[j] == Trace(c, s')[j - 1];
      }
      StrictlyCloser(c, s', i - 1, j - 1);
    }
  }

  /** Consecutive painted cells are 8-neighbours, the last one is an
      8-neighbour of the target, and all lie in the box spanned by pen and target. */
  lemma LineIsConnectedInBox(from: Point, to: Point)
    ensures var t := Line(from, to);
      && (forall i :: 0 <= i < |t| - 1 ==> Adjacent(t[i], t[i + 1]))
      && (|t| > 0 ==> Adjacent(t[|t| - 1], to))
      && (forall i :: 0 <= i < |t| ==> InBox(t[i], from, to))
  {
    InitialInv(from, to);
    TraceInBox(Params(from, to), Initial(from, to));
    TraceAdjacent(Params(from, to), Initial(from, to));
  }

  // ---------------------------------------------------------------------------
  // Axis-parallel lines, as used by `stroke_rect`

  lemma {:induction false} TraceHorizontal(c: LineParams, s: LineState)
    requires Inv(c, s) && c.dy == 0 && s.y == c.y1
    ensures Trace(c, s) == Run(Point(s.x, s.y), Abs(c.x1 - s.x), Point(c.sx, 0))
    decreases Distance(c, s)
  {
    TraceUnfold(c, s);
    if s.x != c.x1 {
      StepKeepsInv(c, s);
      assert Step(c, s) == LineState(s.x + c.sx, s.y, s.err);
      TraceHorizontal(c, Step(c, s));
    }
  }

  lemma {:induction false} TraceVertical(c: LineParams, s: LineState)
    requires Inv(c, s) && c.dx == 0 && s.x == c.x1
    ensures Trace(c, s) == Run(Point(s.x, s.y), Abs(c.y1 - s.y), Point(0, c.sy))
    decreases Distance(c, s)
  {
    TraceUnfold(c, s);
    if s.y != c.y1 {
      StepKeepsInv(c, s);
      assert Step(c, s) == LineState(s.x, s.y + c.sy, s.err);
      TraceVertical(c, Step(c, s));
    }
  }

  /** A horizontal line paints the |x1-x0| cells from the pen toward the target. */
  lemma HorizontalLine(from: Point, to: Point)
    requires from.y == to.y
    ensures Line(from, to) == Run(from, Abs(to.x - from.x), Point(if from.x < to.x then 1 else -1, 0))
  {
    InitialInv(from, to);
    TraceHorizontal(Params(from, to), Initial(from, to));
  }

  /** A vertical line paints the |y1-y0| cells from the pen toward the target. */
  lemma VerticalLine(from: Point, to: Point)
    requires from.x == to.x
    ensures Line(from, to) == Run(from, Abs(to.y - from.y), Point(0, if from.y < to.y then 1 else -1))
  {
    InitialInv(from, to);
    TraceVertical(Params(from, to), Initial(from, to));
  }
}
