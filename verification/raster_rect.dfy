/** The cells `Canvas::stroke_rect` and `Canvas::fill_rect` paint. The corners
    are position and position + size, both inclusive. */
module RectRaster {
  import opened Points
  import opened Sizes
  import opened Rasters
  import opened LineRaster

  function Corner(position: Point, size: Size): Point
  {
    Point(position.x + size.width, position.y + size.height)
  }

  /** The outline as four chained lines: right along the top, down the right
      side, left along the bottom, up the left side, back to the start. */
  function StrokeRectCells(position: Point, size: Size): seq<Point>
  {
    var x0, y0 := position.x, position.y;
    var x1, y1 := x0 + size.width, y0 + size.height;
    Line(Point(x0, y0), Point(x1, y0)) + Line(Point(x1, y0), Point(x1, y1))
      + Line(Point(x1, y1), Point(x0, y1)) + Line(Point(x0, y1), Point(x0, y0))
  }

  /** Inside the inclusive rectangle. */
  predicate InRect(position: Point, size: Size, p: Point)
  {
    position.x <= p.x <= position.x + size.width && position.y <= p.y <= position.y + size.height
  }

  /** On the border of the inclusive rectangle. */
  predicate OnOutline(position: Point, size: Size, p: Point)
  {
    && InRect(position, size, p)
    && (p.x == position.x || p.x == position.x + size.width
        || p.y == position.y || p.y == position.y + size.height)
  }

  /** The outline as four runs of cells, each ending just before the next corner. */
  function OutlineRuns(position: Point, size: Size): seq<Point>
  {
    var x0, y0 := position.x, position.y;
    var x1, y1 := x0 + size.width, y0 + size.height;
    Run(Point(x0, y0), size.width, Point(1, 0)) + Run(Point(x1, y0), size.height, Point(0, 1))
      + Run(Point(x1, y1), size.width, Point(-1, 0)) + Run(Point(x0, y1), size.height, Point(0, -1))
  }

  lemma StrokeRectIsRuns(position: Point, size: Size)
    requires size.width >= 1 && size.height >= 1
    ensures StrokeRectCells(position, size) == OutlineRuns(position, size)
  {
    var x0, y0 := position.x, position.y;
    var x1, y1 := x0 + size.width, y0 + size.height;
    HorizontalLine(Point(x0, y0), Point(x1, y0));
    VerticalLine(Point(x1, y0), Point(x1, y1));
    HorizontalLine(Point(x1, y1), Point(x0, y1));
    VerticalLine(Point(x0, y1), Point(x0, y0));
  }

  lemma OutlineRunsMembers(position: Point, size: Size, p: Point)
    requires size.width >= 1 && size.height >= 1
    ensures p in OutlineRuns(position, size) <==> OnOutline(position, size, p)
  {
    var x0, y0 := position.x, position.y;
    var x1, y1 := x0 + size.width, y0 + size.height;
    var w, h := size.width, size.height;
    RunAlongX(Point(x0, y0), w, 1, p);
    RunAlongY(Point(x1, y0), h, 1, p);
    RunAlongX(Point(x1, y1), w, -1, p);
    RunAlongY(Point(x0, y1), h, -1, p);
  }

  lemma OutlineRunsDistinct(position: Point, size: Size)
    requires size.width >= 1 && size.height >= 1
    ensures Distinct(OutlineRuns(position, size))
  {
    var x0, y0 := position.x, position.y;
    var x1, y1 := x0 + size.width, y0 + size.height;
    var w, h := size.width, size.height;
    var top := Run(Point(x0, y0), w, Point(1, 0));
    var right := Run(Point(x1, y0), h, Point(0, 1));
    var bottom := Run(Point(x1, y1), w, Point(-1, 0));
    var left := Run(Point(x0, y1), h, Point(0, -1));
    forall p
      ensures p in top <==> p.y == y0 && x0 <= p.x < x1
      ensures p in right <==> p.x == x1 && y0 <= p.y < y1
      ensures p in bottom <==> p.y == y1 && x0 < p.x <= x1
      ensures p in left <==> p.x == x0 && y0 < p.y <= y1
    {
      RunAlongX(Point(x0, y0), w, 1, p);
      RunAlongY(Point(x1, y0), h, 1, p);
      RunAlongX(Point(x1, y1), w, -1, p);
      RunAlongY(Point(x0, y1), h, -1, p);
    }
    RunAlongXDistinct(Point(x0, y0), w, 1);
    RunAlongYDistinct(Point(x1, y0), h, 1);
    RunAlongXDistinct(Point(x1, y1), w, -1);
    RunAlongYDistinct(Point(x0, y1), h, -1);
    DistinctConcat(top, right);
    DistinctConcat(top + right, bottom);
    DistinctConcat(top + right + bottom, left);
  }

  /** For a non-degenerate rectangle the outline visits every border cell
      exactly once: 2 * (width + height) cells, no repeats, nothing inside. */
  lemma StrokeRectIsOutline(position: Point, size: Size)
    requires size.width >= 1 && size.height >= 1
    ensures |StrokeRectCells(position, size)| == 2 * (size.width + size.height)
    ensures forall p :: p in StrokeRectCells(position, size) <==> OnOutline(position, size, p)
    ensures Distinct(StrokeRectCells(position, size))
  {
    StrokeRectIsRuns(position, size);
    forall p
      ensures p in StrokeRectCells(position, size) <==> OnOutline(position, size, p)
    {
      OutlineRunsMembers(position, size, p);
    }
    OutlineRunsDistinct(position, size);
  }

  /** One row of the fill, x0..=x1 at height y. */
  function Row(x0: int, x1: int, y: int): seq<Point>
    requires x0 <= x1
  {
    Run(Point(x0, y), x1 - x0 + 1, Point(1, 0))
  }

  /** Rows y..=y1 of the fill, top to bottom. */
  function Rows(x0: int, x1: int, y: int, y1: int): seq<Point>
    requires x0 <= x1
    decreases y1 - y + 1
  {
    if y > y1 then [] else Row(x0, x1, y) + Rows(x0, x1, y + 1, y1)
  }

  /** Both loops of the fill run over `usize` ranges starting at the
      rectangle's corner, so a corner left of column 0 or above row 0 paints
      nothing (`RangeReachesGrid`). */
  function FillRectCells(position: Point, size: Size): seq<Point>
  {
    if RangeReachesGrid(position.x) && RangeReachesGrid(position.y) then
      Rows(position.x, position.x + size.width, position.y, position.y + size.height)
    else []
  }

  lemma {:induction false} RowsCover(x0: int, x1: int, y: int, y1: int)
    requires x0 <= x1
    ensures y <= y1 + 1 ==> |Rows(x0, x1, y, y1)| == (x1 - x0 + 1) * (y1 - y + 1)
    ensures forall p :: p in Rows(x0, x1, y, y1) <==> x0 <= p.x <= x1 && y <= p.y <= y1
    ensures Distinct(Rows(x0, x1, y, y1))
    decreases y1 - y + 1
  {
    if y <= y1 {
      RowsCover(x0, x1, y + 1, y1);
      var row, rest := Row(x0, x1, y), Rows(x0, x1, y + 1, y1);
      forall p
        ensures p in row <==> p.y == y && x0 <= p.x <= x1
      {
        RunAlongX(Point(x0, y), x1 - x0 + 1, 1, p);
      }
      RunAlongXDistinct(Point(x0, y), x1 - x0 + 1, 1);
      DistinctConcat(row, rest);
      assert (x1 - x0 + 1) * (y1 - y + 1) == (x1 - x0 + 1) + (x1 - x0 + 1) * (y1 - y);
    }
  }

  /** With its corner on the grid's side of row and column 0, the fill paints
      every cell of the inclusive rectangle exactly once: (width + 1) *
      (height + 1) cells, row by row. With the corner beyond either, it
      paints nothing. */
  lemma FillRectIsRectangle(position: Point, size: Size)
    ensures var reaches := 0 <= position.x && 0 <= position.y;
      |FillRectCells(position, size)| == if reaches then (size.width + 1) * (size.height + 1) else 0
    ensures forall p :: p in FillRectCells(position, size) <==>
      InRect(position, size, p) && 0 <= position.x && 0 <= position.y
    ensures Distinct(FillRectCells(position, size))
  {
    RowsCover(position.x, position.x + size.width, position.y, position.y + size.height);
  }
}
