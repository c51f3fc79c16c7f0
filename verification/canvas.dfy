/** `Canvas`: a pen position and optional stroke and fill paints over a cell
    buffer. Every drawing call first looks for the paint it needs and, when
    that paint is missing, fails with a fixed message and changes nothing;
    otherwise it hands the cells its rasterizer yields to the paint, in order. */
module Canvases {
  import opened Wrappers
  import opened Points
  import opened Sizes
  import opened Cells
  import opened CellBuffers
  import LineRaster
  import RectRaster
  import CircleRaster
  import EllipseRaster

  /** The one paint there is: it writes a fixed cell. */
  datatype Paint = SolidPaint(cell: Cell)

  datatype Canvas = Canvas(buffer: CellBuffer, position: Point, stroke: Option<Paint>, fill: Option<Paint>)

  /** What a drawing call gives back: its status and the canvas after it. */
  datatype Drawn = Drawn(status: Result<()>, canvas: Canvas)

  // ---------------------------------------------------------------------------
  // Painting cells

  /** Painting one cell is a buffer write: outside the grid nothing changes. */
  function PaintCell(paint: Paint, b: CellBuffer, p: Point): (r: CellBuffer)
    requires Valid(b)
    ensures Valid(r) && r.size == b.size
    ensures !InBounds(b.size, p) ==> r == b
    ensures forall q :: Get(r, q) == (if q == p && InBounds(b.size, p) then Some(paint.cell) else Get(b, q))
  {
    Set(b, p, paint.cell)
  }

  /** `after` holds `cell` at every in-grid cell of `cells` and agrees with
      `before` everywhere else. */
  ghost predicate PaintedExactly(before: CellBuffer, after: CellBuffer, cell: Cell, cells: seq<Point>)
    requires Valid(before) && Valid(after)
  {
    forall q :: Get(after, q) == if q in cells && InBounds(before.size, q) then Some(cell) else Get(before, q)
  }

  /** The buffer after handing each of `cells` to the paint, first to last. */
  function PaintAll(paint: Paint, b: CellBuffer, cells: seq<Point>): (r: CellBuffer)
    requires Valid(b)
    ensures Valid(r) && r.size == b.size
    ensures PaintedExactly(b, r, paint.cell, cells)
    decreases |cells|
  {
    if |cells| == 0 then b
    else
      var r := PaintAll(paint, PaintCell(paint, b, cells[0]), cells[1..]);
      assert forall q :: q in cells <==> q == cells[0] || q in cells[1..] by {
        assert cells == [cells[0]] + cells[1..];
      }
      r
  }

  /** Painting two runs one after the other paints their concatenation. */
  lemma PaintedExactlyConcat(a: CellBuffer, b: CellBuffer, c: CellBuffer, cell: Cell, s: seq<Point>, t: seq<Point>)
    requires Valid(a) && Valid(b) && Valid(c) && b.size == a.size
    requires PaintedExactly(a, b, cell, s) && PaintedExactly(b, c, cell, t)
    ensures PaintedExactly(a, c, cell, s + t)
  {
    forall q
      ensures Get(c, q) == if q in s + t && InBounds(a.size, q) then Some(cell) else Get(a, q)
    {
      assert q in s + t <==> q in s || q in t;
    }
  }

  // ---------------------------------------------------------------------------
  // Pen and paints

  /** A fresh canvas has its pen at the origin. */
  function New(buffer: CellBuffer, stroke: Option<Paint>, fill: Option<Paint>): (c: Canvas)
    ensures c.position == Points.Empty() && Points.IsEmpty(c.position)
    ensures c.buffer == buffer && c.stroke == stroke && c.fill == fill
  {
    Canvas(buffer, Points.Empty(), stroke, fill)
  }

  function SetStroke(c: Canvas, paint: Paint): (r: Canvas)
    ensures r.stroke == Some(paint)
    ensures r.buffer == c.buffer && r.position == c.position && r.fill == c.fill
  {
    c.(stroke := Some(paint))
  }

  function SetFill(c: Canvas, paint: Paint): (r: Canvas)
    ensures r.fill == Some(paint)
    ensures r.buffer == c.buffer && r.position == c.position && r.stroke == c.stroke
  {
    c.(fill := Some(paint))
  }

  /** Moving the pen changes nothing else. */
  function MoveTo(c: Canvas, position: Point): (r: Canvas)
    ensures r.position == position
    ensures r.buffer == c.buffer && r.stroke == c.stroke && r.fill == c.fill
  {
    c.(position := position)
  }

  // ---------------------------------------------------------------------------
  // Drawing calls

  /** The outcome of a drawing call that needs `paint` and paints `cells`:
      without the paint, the error `message` and the canvas unchanged (buffer
      and pen alike); with it, success, exactly those cells painted and the
      pen at `pen`. */
  ghost predicate DrawnAs(c: Canvas, r: Drawn, paint: Option<Paint>, message: string, cells: seq<Point>, pen: Point)
    requires Valid(c.buffer)
  {
    if paint.None? then r == Drawn(Err(message), c)
    else
      && r.status == Ok(())
      && r.canvas.stroke == c.stroke && r.canvas.fill == c.fill && r.canvas.position == pen
      && Valid(r.canvas.buffer) && r.canvas.buffer.size == c.buffer.size
      && PaintedExactly(c.buffer, r.canvas.buffer, paint.value.cell, cells)
  }

  /** Paints `cells` with `paint` if there is one, leaving the pen where it is. */
  function Draw(c: Canvas, paint: Option<Paint>, message: string, cells: seq<Point>): (r: Drawn)
    requires Valid(c.buffer)
    ensures DrawnAs(c, r, paint, message, cells, c.position)
  {
    match paint
    case None => Drawn(Err(message), c)
    case Some(p) => Drawn(Ok(()), c.(buffer := PaintAll(p, c.buffer, cells)))
  }

  /** A line from the pen to `to` with the stroke; on success the pen ends at `to`. */
  function LineTo(c: Canvas, to: Point): (r: Drawn)
    requires Valid(c.buffer)
    ensures DrawnAs(c, r, c.stroke, "Can not draw a line without a stroke.", LineRaster.Line(c.position, to), to)
  {
    match c.stroke
    case None => Drawn(Err("Can not draw a line without a stroke."), c)
    case Some(p) =>
      Drawn(Ok(()), MoveTo(c.(buffer := PaintAll(p, c.buffer, LineRaster.Line(c.position, to))), to))
  }

  /** The cells of lines chained from `from` through each of `points`. */
  function Polyline(from: Point, points: seq<Point>): seq<Point>
    decreases |points|
  {
    if |points| == 0 then [] else LineRaster.Line(from, points[0]) + Polyline(points[0], points[1..])
  }

  /** `line_to` each of `points` in turn; with a stroke present none fails. */
  function LinesTo(c: Canvas, points: seq<Point>): (r: Drawn)
    requires Valid(c.buffer) && c.stroke.Some?
    ensures DrawnAs(c, r, c.stroke, "", Polyline(c.position, points),
                    if |points| == 0 then c.position else points[|points| - 1])
    decreases |points|
  {
    if |points| == 0 then Drawn(Ok(()), c)
    else
      var d := LineTo(c, points[0]);
      var r := LinesTo(d.canvas, points[1..]);
      PaintedExactlyConcat(c.buffer, d.canvas.buffer, r.canvas.buffer, c.stroke.value.cell,
                           LineRaster.Line(c.position, points[0]), Polyline(points[0], points[1..]));
      r
  }

  /** One step of a polyline, unfolded. */
  lemma PolylineStep(from: Point, to: Point, rest: seq<Point>)
    ensures Polyline(from, [to] + rest) == LineRaster.Line(from, to) + Polyline(to, rest)
  {
    assert ([to] + rest)[1..] == rest;
  }

  lemma ConcatAssoc(a: seq<Point>, b: seq<Point>, c: seq<Point>, d: seq<Point>)
    ensures a + (b + (c + d)) == a + b + c + d
  {
  }

  /** A polyline through four points is the four lines joined. */
  lemma FourLines(a: Point, b: Point, c: Point, d: Point, e: Point)
    ensures Polyline(a, [b, c, d, e])
      == LineRaster.Line(a, b) + LineRaster.Line(b, c) + LineRaster.Line(c, d) + LineRaster.Line(d, e)
  {
    PolylineStep(d, e, []);
    assert [e] + [] == [e];
    PolylineStep(c, d, [e]);
    assert [d] + [e] == [d, e];
    PolylineStep(b, c, [d, e]);
    assert [c] + [d, e] == [c, d, e];
    PolylineStep(a, b, [c, d, e]);
    assert [b] + [c, d, e] == [b, c, d, e];
    ConcatAssoc(LineRaster.Line(a, b), LineRaster.Line(b, c), LineRaster.Line(c, d), LineRaster.Line(d, e));
  }

  /** The rectangle's outline is the polyline around its four corners. */
  lemma OutlineIsPolyline(position: Point, size: Size)
    ensures var x0, y0 := position.x, position.y;
      var x1, y1 := x0 + size.width, y0 + size.height;
      Polyline(Point(x0, y0), [Point(x1, y0), Point(x1, y1), Point(x0, y1), Point(x0, y0)])
        == RectRaster.StrokeRectCells(position, size)
  {
    var x0, y0 := position.x, position.y;
    var x1, y1 := x0 + size.width, y0 + size.height;
    FourLines(Point(x0, y0), Point(x1, y0), Point(x1, y1), Point(x0, y1), Point(x0, y0));
  }

  /** The outline as four chained lines starting and ending at `position`. */
  function StrokeRect(c: Canvas, position: Point, size: Size): (r: Drawn)
    requires Valid(c.buffer)
    ensures DrawnAs(c, r, c.stroke, "Can not draw a rectangle without a stroke.",
                    RectRaster.StrokeRectCells(position, size), position)
  {
    if c.stroke.None? then Drawn(Err("Can not draw a rectangle without a stroke."), c)
    else
      var x0, y0 := position.x, position.y;
      var x1, y1 := x0 + size.width, y0 + size.height;
      var corners := [Point(x1, y0), Point(x1, y1), Point(x0, y1), Point(x0, y0)];
      var m := MoveTo(c, Point(x0, y0));
      var r := LinesTo(m, corners);
      OutlineIsPolyline(position, size);
      assert Point(x0, y0) == position;
      assert Polyline(m.position, corners) == RectRaster.StrokeRectCells(position, size);
      r
  }

  /** Fills the inclusive rectangle; the pen stays. */
  function FillRect(c: Canvas, position: Point, size: Size): (r: Drawn)
    requires Valid(c.buffer)
    ensures DrawnAs(c, r, c.fill, "Can not fill a rectangle without a fill.",
                    RectRaster.FillRectCells(position, size), c.position)
  {
    Draw(c, c.fill, "Can not fill a rectangle without a fill.", RectRaster.FillRectCells(position, size))
  }

  function StrokeCircleFromCenter(c: Canvas, center: Point, radius: nat): (r: Drawn)
    requires Valid(c.buffer)
    ensures DrawnAs(c, r, c.stroke, "Can not draw a circle without a stroke.",
                    CircleRaster.StrokeCircleCells(center, radius), c.position)
  {
    Draw(c, c.stroke, "Can not draw a circle without a stroke.", CircleRaster.StrokeCircleCells(center, radius))
  }

  /** The circle inscribed in the square of side 2r whose top-left corner is `position`. */
  function StrokeCircle(c: Canvas, position: Point, radius: nat): (r: Drawn)
    requires Valid(c.buffer)
    ensures DrawnAs(c, r, c.stroke, "Can not draw a circle without a stroke.",
                    CircleRaster.StrokeCircleCells(Point(position.x + radius, position.y + radius), radius), c.position)
  {
    StrokeCircleFromCenter(c, CircleRaster.CircleCenter(position, radius), radius)
  }

  function FillCircleFromCenter(c: Canvas, center: Point, radius: nat): (r: Drawn)
    requires Valid(c.buffer)
    ensures DrawnAs(c, r, c.fill, "Can not fill a circle without a fill.",
                    CircleRaster.FillCircleCells(center, radius), c.position)
  {
    Draw(c, c.fill, "Can not fill a circle without a fill.", CircleRaster.FillCircleCells(center, radius))
  }

  function FillCircle(c: Canvas, position: Point, radius: nat): (r: Drawn)
    requires Valid(c.buffer)
    ensures DrawnAs(c, r, c.fill, "Can not fill a circle without a fill.",
                    CircleRaster.FillCircleCells(Point(position.x + radius, position.y + radius), radius), c.position)
  {
    FillCircleFromCenter(c, CircleRaster.CircleCenter(position, radius), radius)
  }

  /** The ellipse inscribed in the box [x, x + width] x [y, y + height],
      with the tail loop as written. */
  function StrokeEllipse(c: Canvas, position: Point, size: Size): (r: Drawn)
    requires Valid(c.buffer)
    ensures DrawnAs(c, r, c.stroke, "Can not draw an ellipse without a stroke.",
                    EllipseRaster.StrokeEllipseCellsAsWritten(position, size), c.position)
  {
    Draw(c, c.stroke, "Can not draw an ellipse without a stroke.", EllipseRaster.StrokeEllipseCellsAsWritten(position, size))
  }

  function StrokeEllipseFromCenter(c: Canvas, center: Point, size: Size): (r: Drawn)
    requires Valid(c.buffer)
    ensures DrawnAs(c, r, c.stroke, "Can not draw an ellipse without a stroke.",
                    EllipseRaster.StrokeEllipseCellsAsWritten(EllipseRaster.FromCenter(center, size), size), c.position)
  {
    StrokeEllipse(c, EllipseRaster.FromCenter(center, size), size)
  }

  function FillEllipse(c: Canvas, position: Point, size: Size): (r: Drawn)
    requires Valid(c.buffer)
    ensures DrawnAs(c, r, c.fill, "Can not fill an ellipse without a fill.",
                    EllipseRaster.FillEllipseCellsAsWritten(position, size), c.position)
  {
    Draw(c, c.fill, "Can not fill an ellipse without a fill.", EllipseRaster.FillEllipseCellsAsWritten(position, size))
  }

  function FillEllipseFromCenter(c: Canvas, center: Point, size: Size): (r: Drawn)
    requires Valid(c.buffer)
    ensures DrawnAs(c, r, c.fill, "Can not fill an ellipse without a fill.",
                    EllipseRaster.FillEllipseCellsAsWritten(EllipseRaster.FromCenter(center, size), size), c.position)
  {
    FillEllipse(c, EllipseRaster.FromCenter(center, size), size)
  }

  /** Corrected: the stroke with Zingl's tail columns. */
  function StrokeEllipseCorrected(c: Canvas, position: Point, size: Size): (r: Drawn)
    requires Valid(c.buffer)
    ensures DrawnAs(c, r, c.stroke, "Can not draw an ellipse without a stroke.",
                    EllipseRaster.StrokeEllipseCells(position, size), c.position)
  {
    Draw(c, c.stroke, "Can not draw an ellipse without a stroke.", EllipseRaster.StrokeEllipseCells(position, size))
  }

  /** Corrected: the fill with Zingl's tail columns and rows. */
  function FillEllipseCorrected(c: Canvas, position: Point, size: Size): (r: Drawn)
    requires Valid(c.buffer)
    ensures DrawnAs(c, r, c.fill, "Can not fill an ellipse without a fill.",
                    EllipseRaster.FillEllipseCells(position, size), c.position)
  {
    Draw(c, c.fill, "Can not fill an ellipse without a fill.", EllipseRaster.FillEllipseCells(position, size))
  }

  // ---------------------------------------------------------------------------
  // What the calls do to the buffer

  /** A line paints the pen's cell (when the pen is on the grid and not at
      the target), never the target's cell, and leaves the pen on the target. */
  lemma LineToEndpoints(c: Canvas, to: Point)
    requires Valid(c.buffer) && c.stroke.Some?
    ensures var r := LineTo(c, to);
      && r.status == Ok(()) && r.canvas.position == to
      && Get(r.canvas.buffer, to) == Get(c.buffer, to)
      && (c.position != to && InBounds(c.buffer.size, c.position) ==>
            Get(r.canvas.buffer, c.position) == Some(c.stroke.value.cell))
  {
    LineRaster.LineNeverPaintsTargetOrRepeats(c.position, to);
    LineRaster.LineStartsAtPen(c.position, to);
    if c.position != to {
      assert LineRaster.Line(c.position, to)[0] in LineRaster.Line(c.position, to);
    }
  }

  /** A line from the pen to itself paints nothing. */
  lemma LineToSelfPaintsNothing(c: Canvas)
    requires Valid(c.buffer) && c.stroke.Some?
    ensures LineTo(c, c.position).canvas.buffer == c.buffer
  {
    LineRaster.LineStartsAtPen(c.position, c.position);
    assert LineRaster.Line(c.position, c.position) == [];
  }

  /** For width and height at least 1, the stroke paints exactly the
      in-grid border cells of the inclusive rectangle and returns the pen to
      its corner. */
  lemma StrokeRectPaintsOutline(c: Canvas, position: Point, size: Size)
    requires Valid(c.buffer) && c.stroke.Some? && size.width >= 1 && size.height >= 1
    ensures var r := StrokeRect(c, position, size);
      && r.status == Ok(()) && r.canvas.position == position
      && forall q :: Get(r.canvas.buffer, q) ==
           if RectRaster.OnOutline(position, size, q) && InBounds(c.buffer.size, q) then Some(c.stroke.value.cell)
           else Get(c.buffer, q)
  {
    RectRaster.StrokeRectIsOutline(position, size);
  }

  /** The fill paints exactly the in-grid cells of the inclusive rectangle,
      and nothing at all when its corner lies left of column 0 or above row 0;
      it leaves the pen where it was. */
  lemma FillRectPaintsRectangle(c: Canvas, position: Point, size: Size)
    requires Valid(c.buffer) && c.fill.Some?
    ensures var r := FillRect(c, position, size);
      && r.status == Ok(()) && r.canvas.position == c.position
      && forall q :: Get(r.canvas.buffer, q) ==
           if RectRaster.InRect(position, size, q) && 0 <= position.x && 0 <= position.y && InBounds(c.buffer.size, q)
           then Some(c.fill.value.cell)
           else Get(c.buffer, q)
  {
    RectRaster.FillRectIsRectangle(position, size);
  }

  /** Outside the square of side 2r about the centre a circle changes nothing. */
  lemma StrokeCircleStaysInSquare(c: Canvas, center: Point, radius: nat, q: Point)
    requires Valid(c.buffer)
    requires !(center.x - radius <= q.x <= center.x + radius && center.y - radius <= q.y <= center.y + radius)
    ensures var r := StrokeCircleFromCenter(c, center, radius);
      Valid(r.canvas.buffer) && Get(r.canvas.buffer, q) == Get(c.buffer, q)
  {
    CircleRaster.StrokeCircleInBox(center, radius);
  }

  /** Outside its box a stroked ellipse changes nothing; for width 0 the box
      is widened by one column on each side, which the tail as written
      reaches (`EllipseRaster.StrokeEllipseAsWrittenLeavesBox`). */
  lemma StrokeEllipseStaysInBox(c: Canvas, position: Point, size: Size, q: Point)
    requires Valid(c.buffer)
    requires var slack := if size.width == 0 then 1 else 0;
      !(position.x - slack <= q.x <= position.x + size.width + slack && position.y <= q.y <= position.y + size.height)
    ensures var r := StrokeEllipse(c, position, size);
      Valid(r.canvas.buffer) && Get(r.canvas.buffer, q) == Get(c.buffer, q)
  {
    assert !EllipseRaster.InWideBox(EllipseRaster.Params(position, size), q);
    assert q !in EllipseRaster.StrokeEllipseCellsAsWritten(position, size);
  }

  /** Outside the same widened box a filled ellipse changes a cell only on
      the wrapped span of a tail pass (`EllipseRaster.OnWrappedSpan`), where
      it writes the fill; a box at or below row 0 has no such span
      (`EllipseRaster.TailWrapsOnlyAboveRowZero`), and there the fill changes
      nothing outside it. */
  lemma FillEllipseStaysInBox(c: Canvas, position: Point, size: Size, q: Point)
    requires Valid(c.buffer)
    requires var slack := if size.width == 0 then 1 else 0;
      !(position.x - slack <= q.x <= position.x + size.width + slack && position.y <= q.y <= position.y + size.height)
    ensures var r := FillEllipse(c, position, size);
      var k := EllipseRaster.Params(position, size);
      var wrapped := exists t :: t in EllipseRaster.TailOfAsWritten(k) && EllipseRaster.OnWrappedSpan(t, q);
      && Valid(r.canvas.buffer)
      && Get(r.canvas.buffer, q)
        == if c.fill.Some? && wrapped && InBounds(c.buffer.size, q) then Some(c.fill.value.cell) else Get(c.buffer, q)
  {
    var k := EllipseRaster.Params(position, size);
    assert !EllipseRaster.InWideBox(k, q);
    var cells := EllipseRaster.FillEllipseCellsAsWritten(position, size);
    assert q in cells <==> exists t :: t in EllipseRaster.TailOfAsWritten(k) && EllipseRaster.OnWrappedSpan(t, q);
  }

  /** Corrected: filling an ellipse after stroking it with the same cell
      leaves the same buffer as filling it alone, so the fill covers the
      stroke. */
  lemma FillEllipseCoversStroke(c: Canvas, position: Point, size: Size)
    requires Valid(c.buffer) && c.stroke.Some? && c.fill == c.stroke
    ensures var stroked := StrokeEllipseCorrected(c, position, size).canvas;
      forall q :: Get(FillEllipseCorrected(stroked, position, size).canvas.buffer, q)
        == Get(FillEllipseCorrected(c, position, size).canvas.buffer, q)
  {
    EllipseRaster.FillCoversStroke(position, size);
  }
}
