/** The midpoint circle rasterizer behind `Canvas::stroke_circle_from_center`
    and `Canvas::fill_circle_from_center`. The loop walks one octant-pair of
    offsets (x, y) with x running from -r up to 0 and y from 0 up to r; the
    stroke paints the four quarter-turn rotations of each offset, the fill
    paints the vertical span between mirrored offsets on both sides. */
module CircleRaster {
  import opened Points
  import opened Rasters

  /** Loop variables: the offset and the error term. */
  datatype CircleState = CircleState(x: int, y: int, err: int)

  function Initial(radius: nat): CircleState
  {
    CircleState(-(radius as int), 0, 2 - 2 * radius)
  }

  /** One pass after painting: the error is sampled once, then y and x step. */
  function Step(s: CircleState): CircleState
  {
    var r := s.err;
    var s1 := if r <= s.y then CircleState(s.x, s.y + 1, s.err + (s.y + 1) * 2 + 1) else s;
    if r > s1.x || s1.err > s1.y then CircleState(s1.x + 1, s1.y, s1.err + (s1.x + 1) * 2 + 1) else s1
  }

  /** The loop invariant: the error is the squared distance of the cell
      diagonally past the offset, minus r squared; the offset stays inside
      the quarter box. */
  predicate Inv(radius: nat, s: CircleState)
  {
    && s.x + radius >= 0 && s.x <= 1 && 0 <= s.y <= radius
    && s.err == (s.x + 1) * (s.x + 1) + (s.y + 1) * (s.y + 1) - radius * radius
  }

  function Remaining(radius: nat, s: CircleState): int
  {
    (1 - s.x) + (radius - s.y)
  }

  lemma SquareMono(a: int, b: int)
    requires 0 <= b <= a
    ensures b * b <= a * a
  {
    assert b * b <= a * b <= a * a;
  }

  /** a² + (b+1)² - r² exceeds b once r <= b. */
  lemma SquaresExceed(a: int, b: int, r: nat)
    requires r <= b
    ensures a * a + (b + 1) * (b + 1) - r * r > b
  {
    assert a * a >= 0 by {
      if a < 0 {
        assert a * a == (-a) * (-a);
      }
    }
    SquareMono(b, r);
    assert (b + 1) * (b + 1) == b * b + 2 * b + 1;
  }

  /** (n+2)² is (n+1)² + 2(n+1) + 1. */
  lemma NextSquare(n: int)
    ensures (n + 2) * (n + 2) == (n + 1) * (n + 1) + (n + 1) * 2 + 1
  {
  }

  /** A y step only happens below the top of the quarter box. */
  lemma YStepBelowRadius(radius: nat, s: CircleState)
    requires Inv(radius, s) && s.err <= s.y
    ensures s.y < radius
  {
    if s.y >= radius {
      SquaresExceed(s.x + 1, s.y, radius);
    }
  }

  lemma StepKeepsInv(radius: nat, s: CircleState)
    requires Inv(radius, s) && s.x <= 0
    ensures Inv(radius, Step(s))
    ensures 0 <= Remaining(radius, Step(s)) < Remaining(radius, s)
    ensures s.x <= Step(s).x <= s.x + 1 && s.y <= Step(s).y <= s.y + 1
  {
    var r := s.err;
    var s1 := if r <= s.y then CircleState(s.x, s.y + 1, s.err + (s.y + 1) * 2 + 1) else s;
    if r <= s.y {
      YStepBelowRadius(radius, s);
      NextSquare(s.y);
    }
    if r > s1.x || s1.err > s1.y {
      NextSquare(s1.x);
    } else {
      // Without an x step there was a y step.
      assert r <= s.y;
    }
  }

  /** The offsets (x, y) of every pass, from state `s` until x passes 0. */
  function Offsets(radius: nat, s: CircleState): seq<Point>
    requires Inv(radius, s)
    decreases Remaining(radius, s)
  {
    if s.x > 0 then []
    else
      StepKeepsInv(radius, s);
      [Point(s.x, s.y)] + Offsets(radius, Step(s))
  }

  /** One unfolding of the offsets, with what a pass guarantees. */
  lemma OffsetsUnfold(radius: nat, s: CircleState)
    requires Inv(radius, s)
    ensures s.x > 0 ==> Offsets(radius, s) == []
    ensures s.x <= 0 ==> Inv(radius, Step(s)) && Offsets(radius, s) == [Point(s.x, s.y)] + Offsets(radius, Step(s))
  {
    if s.x <= 0 {
      StepKeepsInv(radius, s);
    }
  }

  function CircleOffsets(radius: nat): seq<Point>
  {
    Offsets(radius, Initial(radius))
  }

  // ---------------------------------------------------------------------------
  // What each pass paints

  /** Turn a cell a quarter about the centre. */
  function Rotate(center: Point, p: Point): Point
  {
    Point(center.x - (p.y - center.y), center.y + (p.x - center.x))
  }

  /** The four cells the stroke paints for offset (x, y), in the order the loop paints them. */
  function Quad(center: Point, o: Point): seq<Point>
  {
    [Point(center.x - o.x, center.y + o.y), Point(center.x - o.y, center.y - o.x),
     Point(center.x + o.x, center.y - o.y), Point(center.x + o.y, center.y + o.x)]
  }

  /** The fill's span for offset (x, y): rows lo..=hi, each painting column
      cx + x, then column cx - x. */
  function Span(center: Point, x: int, lo: int, hi: int): seq<Point>
    decreases hi - lo + 1
  {
    if lo > hi then []
    else [Point(center.x + x, lo), Point(center.x - x, lo)] + Span(center, x, lo + 1, hi)
  }

  function StrokeCells(center: Point, offsets: seq<Point>): seq<Point>
  {
    if |offsets| == 0 then [] else Quad(center, offsets[0]) + StrokeCells(center, offsets[1..])
  }

  /** The spans of every pass. A span's rows are a `usize` range starting at
      cy - y, so a span whose top would lie above row 0 paints nothing at all
      (`RangeReachesGrid`), not merely its off-grid rows. */
  function FillCells(center: Point, offsets: seq<Point>): seq<Point>
  {
    if |offsets| == 0 then []
    else
      var o := offsets[0];
      var lo := center.y - o.y;
      (if RangeReachesGrid(lo) then Span(center, o.x, lo, center.y + o.y) else [])
        + FillCells(center, offsets[1..])
  }

  function StrokeCircleCells(center: Point, radius: nat): seq<Point>
  {
    StrokeCells(center, CircleOffsets(radius))
  }

  function FillCircleCells(center: Point, radius: nat): seq<Point>
  {
    FillCells(center, CircleOffsets(radius))
  }

  /** The variants taking a top-left position draw about position + (r, r). */
  function CircleCenter(position: Point, radius: nat): Point
  {
    Add(position, Point(radius, radius))
  }

  // ---------------------------------------------------------------------------
  // Properties

  /** Every offset stays in the quarter box: -r <= x <= 0 and 0 <= y <= r;
      the first offset is (-r, 0). */
  lemma {:induction false} OffsetsInQuarter(radius: nat, s: CircleState)
    requires Inv(radius, s)
    ensures forall o :: o in Offsets(radius, s) ==> o.x + radius >= 0 && o.x <= 0 && 0 <= o.y <= radius
    decreases Remaining(radius, s)
  {
    OffsetsUnfold(radius, s);
    if s.x <= 0 {
      StepKeepsInv(radius, s);
      OffsetsInQuarter(radius, Step(s));
    }
  }

  lemma CircleStartsOnAxis(radius: nat)
    ensures |CircleOffsets(radius)| > 0 && CircleOffsets(radius)[0] == Point(-(radius as int), 0)
  {
  }

  lemma {:induction false} StrokeCellsRotationClosed(center: Point, offsets: seq<Point>, p: Point)
    requires p in StrokeCells(center, offsets)
    ensures Rotate(center, p) in StrokeCells(center, offsets)
  {
    if |offsets| > 0 {
      var q := Quad(center, offsets[0]);
      if p in q {
        assert Rotate(center, p) in q;
      } else {
        StrokeCellsRotationClosed(center, offsets[1..], p);
      }
    }
  }

  /** The first pass paints the four axis extremes (cx ± r, cy) and (cx, cy ± r). */
  lemma StrokeCircleExtremes(center: Point, radius: nat)
    ensures Point(center.x + radius, center.y) in StrokeCircleCells(center, radius)
    ensures Point(center.x - radius, center.y) in StrokeCircleCells(center, radius)
    ensures Point(center.x, center.y + radius) in StrokeCircleCells(center, radius)
    ensures Point(center.x, center.y - radius) in StrokeCircleCells(center, radius)
  {
    CircleStartsOnAxis(radius);
    var offsets := CircleOffsets(radius);
    var q := Quad(center, Point(-(radius as int), 0));
    assert q == [Point(center.x + radius, center.y), Point(center.x, center.y + radius),
                 Point(center.x - radius, center.y), Point(center.x, center.y - radius)];
    assert StrokeCircleCells(center, radius) == q + StrokeCells(center, offsets[1..]);
  }

  /** The stroke's cell set is closed under quarter turns about the centre,
      and it contains the four axis extremes. */
  lemma StrokeCircleSymmetric(center: Point, radius: nat)
    ensures forall p :: p in StrokeCircleCells(center, radius) ==> Rotate(center, p) in StrokeCircleCells(center, radius)
    ensures Point(center.x + radius, center.y) in StrokeCircleCells(center, radius)
    ensures Point(center.x - radius, center.y) in StrokeCircleCells(center, radius)
    ensures Point(center.x, center.y + radius) in StrokeCircleCells(center, radius)
    ensures Point(center.x, center.y - radius) in StrokeCircleCells(center, radius)
  {
    forall p | p in StrokeCircleCells(center, radius)
      ensures Rotate(center, p) in StrokeCircleCells(center, radius)
    {
      StrokeCellsRotationClosed(center, CircleOffsets(radius), p);
    }
    StrokeCircleExtremes(center, radius);
  }

  lemma {:induction false} StrokeCellsInBox(center: Point, radius: nat, offsets: seq<Point>)
    requires forall o :: o in offsets ==> o.x + radius >= 0 && o.x <= 0 && 0 <= o.y <= radius
    ensures forall p :: p in StrokeCells(center, offsets) ==>
      center.x - radius <= p.x <= center.x + radius && center.y - radius <= p.y <= center.y + radius
  {
    if |offsets| > 0 {
      assert offsets[0] in offsets;
      StrokeCellsInBox(center, radius, offsets[1..]);
    }
  }

  /** The stroke stays inside the square of side 2r about the centre. */
  lemma StrokeCircleInBox(center: Point, radius: nat)
    ensures forall p :: p in StrokeCircleCells(center, radius) ==>
      center.x - radius <= p.x <= center.x + radius && center.y - radius <= p.y <= center.y + radius
  {
    OffsetsInQuarter(radius, Initial(radius));
    StrokeCellsInBox(center, radius, CircleOffsets(radius));
  }

  lemma {:induction false} SpanMembers(center: Point, x: int, lo: int, hi: int, p: Point)
    ensures p in Span(center, x, lo, hi) <==> lo <= p.y <= hi && (p.x == center.x + x || p.x == center.x - x)
    decreases hi - lo + 1
  {
    if lo <= hi {
      SpanMembers(center, x, lo + 1, hi, p);
    }
  }

  lemma {:induction false} FillCellsMirrored(center: Point, offsets: seq<Point>, p: Point)
    requires p in FillCells(center, offsets)
    ensures Point(2 * center.x - p.x, p.y) in FillCells(center, offsets)
    ensures Point(p.x, 2 * center.y - p.y) in FillCells(center, offsets)
  {
    if |offsets| > 0 {
      var o := offsets[0];
      var lo, hi := center.y - o.y, center.y + o.y;
      var span := if RangeReachesGrid(lo) then Span(center, o.x, lo, hi) else [];
      assert FillCells(center, offsets) == span + FillCells(center, offsets[1..]);
      SpanMembers(center, o.x, lo, hi, p);
      SpanMembers(center, o.x, lo, hi, Point(2 * center.x - p.x, p.y));
      SpanMembers(center, o.x, lo, hi, Point(p.x, 2 * center.y - p.y));
      if p !in span {
        FillCellsMirrored(center, offsets[1..], p);
      }
    }
  }

  /** Every span the fill paints starts at or below row 0 and is centred on
      row cy, so no painted row lies above 0 or below 2 cy. */
  lemma {:induction false} FillCellsRows(center: Point, offsets: seq<Point>, p: Point)
    requires forall o :: o in offsets ==> o.y >= 0
    requires p in FillCells(center, offsets)
    ensures 0 <= p.y <= 2 * center.y
  {
    var o := offsets[0];
    var lo, hi := center.y - o.y, center.y + o.y;
    var span := if RangeReachesGrid(lo) then Span(center, o.x, lo, hi) else [];
    assert FillCells(center, offsets) == span + FillCells(center, offsets[1..]);
    assert o in offsets;
    if p in span {
      SpanMembers(center, o.x, lo, hi, p);
    } else {
      FillCellsRows(center, offsets[1..], p);
    }
  }

  /** The fill's cell set is mirror-symmetric about both centre lines. */
  lemma FillCircleSymmetric(center: Point, radius: nat)
    ensures forall p :: p in FillCircleCells(center, radius) ==>
      Point(2 * center.x - p.x, p.y) in FillCircleCells(center, radius)
      && Point(p.x, 2 * center.y - p.y) in FillCircleCells(center, radius)
  {
    forall p | p in FillCircleCells(center, radius)
      ensures Point(2 * center.x - p.x, p.y) in FillCircleCells(center, radius)
      ensures Point(p.x, 2 * center.y - p.y) in FillCircleCells(center, radius)
    {
      FillCellsMirrored(center, CircleOffsets(radius), p);
    }
  }

  /** Because a span reaching above row 0 is dropped whole, the fill paints
      only rows 0 to 2 cy: a circle whose centre row is less than its radius
      loses its top and bottom, on the grid as well as off it. */
  lemma FillCircleKeepsToCentreBand(center: Point, radius: nat)
    ensures forall p :: p in FillCircleCells(center, radius) ==> 0 <= p.y <= 2 * center.y
  {
    OffsetsInQuarter(radius, Initial(radius));
    forall p | p in FillCircleCells(center, radius)
      ensures 0 <= p.y <= 2 * center.y
    {
      FillCellsRows(center, CircleOffsets(radius), p);
    }
  }

}
