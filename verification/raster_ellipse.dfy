/** The ellipse rasterizer behind `Canvas::stroke_ellipse` and
    `Canvas::fill_ellipse`, an integer walk over the bounding box
    [x, x + width] x [y, y + height]. The main loop moves the columns x0, x1
    inward from the box sides and the rows y0, y1 outward from the middle,
    one step per axis at most; a tail loop then finishes the tips of flat
    ellipses by growing the rows alone. */
module EllipseRaster {
  import opened Points
  import opened Sizes
  import opened Rasters

  /** The bounding box: top-left corner and the two diameters. */
  datatype EllipseParams = EllipseParams(px: int, py: int, w: nat, h: nat)

  /** Loop variables: two columns, two rows, the two increments and the error. */
  datatype EllipseState = EllipseState(x0: int, y0: int, x1: int, y1: int, dx: int, dy: int, err: int)

  /** The cells one pass works on: columns x0, x1 and rows y0, y1. */
  datatype Corners = Corners(x0: int, y0: int, x1: int, y1: int)

  function Params(position: Point, size: Size): EllipseParams
  {
    EllipseParams(position.x, position.y, size.width, size.height)
  }

  /** Whether the height is odd (`b & 1`). */
  function Parity(k: EllipseParams): nat
  {
    k.h % 2
  }

  /** The starting row y0, the middle of the box rounded down. */
  function Middle(k: EllipseParams): int
  {
    k.py + (k.h + 1) / 2
  }

  // The increments and the error after i column steps and j row steps.

  // They are written with `Mul` so that the loop invariant stays linear;
  // the `*Product` lemmas give the same values with `*`.

  function DxAt(k: EllipseParams, i: nat): int
  {
    Mul(4 - 4 * k.w + 8 * i, Square(k.h))
  }

  function DyAt(k: EllipseParams, j: nat): int
  {
    Mul(4 * Parity(k) + 4 + 8 * j, Square(k.w))
  }

  function ErrAt(k: EllipseParams, i: nat, j: nat): int
  {
    Mul(4 * Mul(i + 1 - k.w, i + 1), Square(k.h))
      + Mul(4 * Mul(j + 1 + Parity(k), j + 1) + Parity(k), Square(k.w))
  }

  lemma DxAtProduct(k: EllipseParams, i: nat)
    ensures DxAt(k, i) == (4 - 4 * k.w + 8 * i) * Square(k.h)
  {
    MulIsProduct(4 - 4 * k.w + 8 * i, Square(k.h));
  }

  lemma DyAtProduct(k: EllipseParams, j: nat)
    ensures DyAt(k, j) == (4 * Parity(k) + 4 + 8 * j) * Square(k.w)
  {
    MulIsProduct(4 * Parity(k) + 4 + 8 * j, Square(k.w));
  }

  lemma ErrAtProduct(k: EllipseParams, i: nat, j: nat)
    ensures ErrAt(k, i, j) == (4 * ((i + 1 - k.w) * (i + 1))) * Square(k.h)
      + (4 * ((j + 1 + Parity(k)) * (j + 1)) + Parity(k)) * Square(k.w)
  {
    var c := Parity(k);
    MulIsProduct(i + 1 - k.w, i + 1);
    MulIsProduct(j + 1 + c, j + 1);
    MulIsProduct(4 * Mul(i + 1 - k.w, i + 1), Square(k.h));
    MulIsProduct(4 * Mul(j + 1 + c, j + 1) + c, Square(k.w));
  }

  function Initial(k: EllipseParams): EllipseState
  {
    var c := Parity(k);
    var dx := Mul(4 * (1 - k.w), Square(k.h));
    var dy := Mul(4 * (c + 1), Square(k.w));
    EllipseState(k.px, Middle(k), k.px + k.w, Middle(k) - c, dx, dy, dx + dy + Mul(c, Square(k.w)))
  }

  /** Moving the rows one further from the middle (`y0 += 1; y1 -= 1`). */
  function RowStep(k: EllipseParams, s: EllipseState): EllipseState
  {
    var dy := s.dy + 8 * Square(k.w);
    s.(y0 := s.y0 + 1, y1 := s.y1 - 1, dy := dy, err := s.err + dy)
  }

  /** Moving the columns one further inward (`x0 += 1; x1 -= 1`). */
  function ColumnStep(k: EllipseParams, s: EllipseState): EllipseState
  {
    var dx := s.dx + 8 * Square(k.h);
    s.(x0 := s.x0 + 1, x1 := s.x1 - 1, dx := dx, err := s.err + dx)
  }

  /** One pass of the main loop after painting: an optional row step, then an
      optional column step that sees the row step's updates. */
  function Step(k: EllipseParams, s: EllipseState): EllipseState
  {
    var e2 := 2 * s.err;
    var s1 := if e2 <= s.dy then RowStep(k, s) else s;
    if e2 >= s1.dx || 2 * s1.err > s1.dy then ColumnStep(k, s1) else s1
  }

  function ColumnSteps(k: EllipseParams, s: EllipseState): int
  {
    s.x0 - k.px
  }

  function RowSteps(k: EllipseParams, s: EllipseState): int
  {
    s.y0 - Middle(k)
  }

  /** The main loop's invariant, in terms of the number i of column steps and
      the number j of row steps taken so far. */
  predicate Inv(k: EllipseParams, s: EllipseState)
  {
    var i, j := ColumnSteps(k, s), RowSteps(k, s);
    && 0 <= i && 0 <= j
    && s.x1 == k.px + k.w - i
    && s.y1 == Middle(k) - Parity(k) - j
    && s.dx == DxAt(k, i) && s.dy == DyAt(k, j) && s.err == ErrAt(k, i, j)
    && 2 * i <= k.w + 2 && 2 * j <= k.h + 2
    && (k.w > 0 ==> 2 * j <= k.h)
    && (k.w == 0 ==> j <= i)
  }

  function Measure(k: EllipseParams, s: EllipseState): int
  {
    (s.x1 - s.x0 + 2) + (k.h + 2 - 2 * RowSteps(k, s))
  }

  // ---------------------------------------------------------------------------
  // Arithmetic of the error term

  lemma DyStep(k: EllipseParams, j: nat)
    ensures DyAt(k, j + 1) == DyAt(k, j) + 8 * Square(k.w)
  {
    var ww := Square(k.w);
    MulAdd(4 * Parity(k) + 4 + 8 * j, 8, ww);
    MulIsProduct(8, ww);
  }

  lemma RowStepArith(k: EllipseParams, i: nat, j: nat)
    ensures DyAt(k, j + 1) == DyAt(k, j) + 8 * Square(k.w)
    ensures ErrAt(k, i, j + 1) == ErrAt(k, i, j) + DyAt(k, j + 1)
  {
    var c, ww := Parity(k), Square(k.w);
    DyStep(k, j);
    var a := Mul(4 * Mul(i + 1 - k.w, i + 1), Square(k.h));
    var x := 4 * Mul(j + 1 + c, j + 1) + c;
    var d := 4 * c + 4 + 8 * (j + 1);
    assert 4 * Mul(j + 2 + c, j + 2) + c == x + d by {
      MulNext(j + 1 + c, j + 1);
    }
    assert Mul(x, ww) + Mul(d, ww) == Mul(x + d, ww) by {
      MulAdd(x, d, ww);
    }
    assert ErrAt(k, i, j) == a + Mul(x, ww);
    assert ErrAt(k, i, j + 1) == a + Mul(x + d, ww);
  }

  lemma ColumnStepArith(k: EllipseParams, i: nat, j: nat)
    ensures DxAt(k, i + 1) == DxAt(k, i) + 8 * Square(k.h)
    ensures ErrAt(k, i + 1, j) == ErrAt(k, i, j) + DxAt(k, i + 1)
  {
    var hh := Square(k.h);
    MulAdd(4 - 4 * k.w + 8 * i, 8, hh);
    MulIsProduct(8, hh);
    MulNext(i + 1 - k.w, i + 1);
    MulAdd(4 * Mul(i + 1 - k.w, i + 1), 8 * i + 12 - 4 * k.w, hh);
  }

  lemma CompletionIdentity(t: int, w: int)
    ensures 4 * ((t - w) * t) + w * w == (2 * t - w) * (2 * t - w)
  {
    assert (t - w) * t == t * t - w * t;
    assert (2 * t - w) * (2 * t - w) == 4 * (t * t) - 4 * (w * t) + w * w;
  }

  lemma SquareNonNegative(x: int)
    ensures x * x >= 0
  {
  }

  /** 4 (i + 1 - w)(i + 1) + w^2 is the square (2 (i + 1) - w)^2. */
  lemma SquareCompletion(w: nat, i: nat)
    ensures 4 * Mul(i + 1 - w, i + 1) + Square(w) >= 0
  {
    MulIsProduct(i + 1 - w, i + 1);
    SquareIsProduct(w);
    CompletionIdentity(i + 1, w);
    SquareNonNegative(2 * (i + 1) - w);
  }

  lemma SquareMono(a: nat, b: nat)
    requires a <= b
    ensures a * a <= b * b
  {
    assert a * a <= a * b <= b * b;
  }

  lemma RowsInequality(h: nat, j: nat, c: nat)
    requires 2 * j + 1 >= h
    ensures 8 * ((j + 1 + c) * (j + 1)) + 2 * c - (4 * c + 4 + 8 * j) >= 2 * (h * h) + 2
  {
    assert (j + 1 + c) * (j + 1) == (j + 1) * (j + 1) + c * (j + 1);
    assert c * (j + 1) == c * j + c;
    assert c * j >= 0;
    assert (j + 1) * (j + 1) == j * j + 2 * j + 1;
    SquareMono(h, 2 * j + 1);
    assert (2 * j + 1) * (2 * j + 1) == 4 * (j * j) + 4 * j + 1;
  }

  /** Once 2j + 1 reaches h, the row part of 2 * err - dy outweighs 2h^2 + 2. */
  lemma RowsExceedHeight(h: nat, j: nat, c: nat)
    requires 2 * j + 1 >= h
    ensures 8 * Mul(j + 1 + c, j + 1) + 2 * c - (4 * c + 4 + 8 * j) >= 2 * Square(h) + 2
  {
    MulIsProduct(j + 1 + c, j + 1);
    SquareIsProduct(h);
    RowsInequality(h, j, c);
  }

  lemma SquarePositive(n: nat)
    requires n > 0
    ensures Square(n) >= 1
  {
    MulMono(1, n, n);
    MulOne(n);
  }

  /** The part of 2 * err - dy that grows with the rows. */
  function RowPart(k: EllipseParams, j: nat): int
  {
    8 * Mul(j + 1 + Parity(k), j + 1) + 2 * Parity(k) - (4 * Parity(k) + 4 + 8 * j)
  }

  /** 2 * err - dy, regrouped by the two squared diameters. */
  lemma RowStepSplit(k: EllipseParams, i: nat, j: nat)
    ensures 2 * ErrAt(k, i, j) - DyAt(k, j)
      == 2 * Mul(4 * Mul(i + 1 - k.w, i + 1), Square(k.h)) + Mul(RowPart(k, j), Square(k.w))
  {
    var c, ww := Parity(k), Square(k.w);
    var r := Mul(j + 1 + c, j + 1);
    MulAdd(4 * r + c, 4 * r + c, ww);
    MulAdd(RowPart(k, j), 4 * c + 4 + 8 * j, ww);
  }

  /** The column part of 2 * err - dy is at least -2 w^2 h^2. */
  lemma ColumnPartBound(k: EllipseParams, i: nat)
    ensures Mul(4 * Mul(i + 1 - k.w, i + 1), Square(k.h)) >= -Mul(Square(k.w), Square(k.h))
  {
    var ww := Square(k.w);
    SquareCompletion(k.w, i);
    MulMono(-(ww as int), 4 * Mul(i + 1 - k.w, i + 1), Square(k.h));
    MulNeg(ww, Square(k.h));
  }

  /** Past the middle, the row part of 2 * err - dy exceeds 2 w^2 h^2. */
  lemma RowPartBound(k: EllipseParams, j: nat)
    requires k.w > 0 && 2 * j + 1 >= k.h
    ensures Mul(RowPart(k, j), Square(k.w)) >= 2 * Mul(Square(k.w), Square(k.h)) + 2
  {
    var ww, hh := Square(k.w), Square(k.h);
    RowsExceedHeight(k.h, j, Parity(k));
    MulMono(2 * hh + 2, RowPart(k, j), ww);
    MulAdd(2 * hh, 2, ww);
    MulAdd(hh, hh, ww);
    MulIsProduct(2, ww);
    MulComm(hh, ww);
    SquarePositive(k.w);
  }

  /** With a positive width, a row step is only taken while two more rows fit
      under the height. */
  lemma RowStepBound(k: EllipseParams, i: nat, j: nat)
    requires k.w > 0
    requires 2 * ErrAt(k, i, j) <= DyAt(k, j)
    ensures 2 * j + 2 <= k.h
  {
    RowStepSplit(k, i, j);
    ColumnPartBound(k, i);
    if 2 * j + 2 > k.h {
      RowPartBound(k, j);
      assert false;
    }
  }

  /** With zero width the row increment is zero, and a row step (which needs a
      zero error) is always paired with a column step. */
  lemma ZeroWidthRowStep(k: EllipseParams, i: nat, j: nat)
    requires k.w == 0
    requires 2 * ErrAt(k, i, j) <= DyAt(k, j)
    ensures ErrAt(k, i, j) == 0 && DxAt(k, i) == 0
  {
    var hh, q := Square(k.h), Mul(i + 1, i + 1);
    assert Square(k.w) == 0;
    assert DyAt(k, j) == 0;
    assert ErrAt(k, i, j) == Mul(4 * q, hh);
    MulMono(1, i + 1, i + 1);
    MulOne(i + 1);
    MulMono(1, 4 * q, hh);
    MulOne(hh);
    assert hh == 0;
  }

  // ---------------------------------------------------------------------------
  // The main loop

  lemma InitialInv(k: EllipseParams)
    ensures Inv(k, Initial(k))
  {
    var c := Parity(k);
    MulByOne(1 - k.w);
    MulByOne(1 + c);
    MulAdd(4 * (c + 1), c, Square(k.w));
  }

  lemma RowStepKeeps(k: EllipseParams, s: EllipseState)
    requires Inv(k, s) && s.x0 <= s.x1 && 2 * s.err <= s.dy
    ensures var s1 := RowStep(k, s);
      && ColumnSteps(k, s1) == ColumnSteps(k, s) && RowSteps(k, s1) == RowSteps(k, s) + 1
      && s1.dy == DyAt(k, RowSteps(k, s1)) && s1.err == ErrAt(k, ColumnSteps(k, s1), RowSteps(k, s1))
      && (k.w > 0 ==> 2 * RowSteps(k, s1) <= k.h)
      && (k.w == 0 ==> s1.err == 0 && s1.dx == 0 && RowSteps(k, s1) == 1)
  {
    var i, j := ColumnSteps(k, s), RowSteps(k, s);
    RowStepArith(k, i, j);
    if k.w > 0 {
      RowStepBound(k, i, j);
    } else {
      ZeroWidthRowStep(k, i, j);
    }
  }

  lemma ColumnStepKeeps(k: EllipseParams, s: EllipseState)
    requires ColumnSteps(k, s) >= 0 && RowSteps(k, s) >= 0 && s.dx == DxAt(k, ColumnSteps(k, s))
    requires s.err == ErrAt(k, ColumnSteps(k, s), RowSteps(k, s))
    ensures var s1 := ColumnStep(k, s);
      && ColumnSteps(k, s1) == ColumnSteps(k, s) + 1 && RowSteps(k, s1) == RowSteps(k, s)
      && s1.dx == DxAt(k, ColumnSteps(k, s1)) && s1.err == ErrAt(k, ColumnSteps(k, s1), RowSteps(k, s1))
  {
    ColumnStepArith(k, ColumnSteps(k, s), RowSteps(k, s));
  }

  /** A pass keeps the invariant and strictly lowers the measure: it takes a
      row step, a column step or both. */
  lemma StepKeepsInv(k: EllipseParams, s: EllipseState)
    requires Inv(k, s) && s.x0 <= s.x1
    ensures Inv(k, Step(k, s))
    ensures 0 <= Measure(k, Step(k, s)) < Measure(k, s)
  {
    var e2 := 2 * s.err;
    if e2 <= s.dy {
      var s1 := RowStep(k, s);
      RowStepKeeps(k, s);
      if e2 >= s1.dx || 2 * s1.err > s1.dy {
        ColumnStepKeeps(k, s1);
        assert Step(k, s) == ColumnStep(k, s1);
      } else {
        assert Step(k, s) == s1;
      }
    } else {
      ColumnStepKeeps(k, s);
      assert Step(k, s) == ColumnStep(k, s);
    }
  }

  function MainPasses(k: EllipseParams, s: EllipseState): seq<Corners>
    requires Inv(k, s)
    decreases Measure(k, s)
  {
    if s.x0 > s.x1 then []
    else
      StepKeepsInv(k, s);
      [Corners(s.x0, s.y0, s.x1, s.y1)] + MainPasses(k, Step(k, s))
  }

  /** The state the main loop leaves: the columns have crossed. */
  function MainExit(k: EllipseParams, s: EllipseState): (r: EllipseState)
    requires Inv(k, s)
    ensures Inv(k, r) && r.x0 > r.x1
    decreases Measure(k, s)
  {
    if s.x0 > s.x1 then s
    else
      StepKeepsInv(k, s);
      MainExit(k, Step(k, s))
  }

  /** The tail loop's passes: rows grow by one on each side until they span
      the height; the columns are fixed. */
  function TailPasses(k: EllipseParams, ux0: int, ux1: int, y0: int, y1: int): seq<Corners>
    decreases k.h - (y0 - y1)
  {
    if y0 - y1 < k.h then [Corners(ux0, y0, ux1, y1)] + TailPasses(k, ux0, ux1, y0 + 1, y1 - 1)
    else []
  }

  function Exit(k: EllipseParams): EllipseState
  {
    InitialInv(k);
    MainExit(k, Initial(k))
  }

  /** All passes, corrected: the tail paints columns x0 - 1 and x1 + 1 of
      the exit state, the innermost columns the main loop reached. */
  function Passes(k: EllipseParams): seq<Corners>
  {
    InitialInv(k);
    var e := Exit(k);
    MainPasses(k, Initial(k)) + TailPasses(k, e.x0 - 1, e.x1 + 1, e.y0, e.y1)
  }

  /** All passes, with the tail as `stroke_ellipse` and `fill_ellipse` write
      it: columns x0 and x1 of the exit state, which have already crossed
      over. Every pass is still centred on the box, and stays inside it but
      for the one-column widening of a zero-width box. */
  function PassesAsWritten(k: EllipseParams): (r: seq<Corners>)
    ensures forall c :: c in r ==> PassAsWrittenOk(k, c)
  {
    InitialInv(k);
    var e := Exit(k);
    MainPassesOk(k, Initial(k));
    ExitColumnsInWideBox(k);
    TailPassesAsWrittenOk(k, e.x0, e.x1, e.y0, e.y1);
    MainPasses(k, Initial(k)) + TailPasses(k, e.x0, e.x1, e.y0, e.y1)
  }

  // ---------------------------------------------------------------------------
  // Painted cells

  function CornerCells(c: Corners): seq<Point>
  {
    [Point(c.x0, c.y0), Point(c.x0, c.y1), Point(c.x1, c.y0), Point(c.x1, c.y1)]
  }

  function StrokeCells(passes: seq<Corners>): seq<Point>
  {
    if |passes| == 0 then [] else CornerCells(passes[0]) + StrokeCells(passes[1..])
  }

  /** Columns x0..=x1 on rows y0 and y1, as the main loop of the fill paints them. */
  function RowPair(x: int, x1: int, y0: int, y1: int): seq<Point>
    decreases x1 - x + 1
  {
    if x > x1 then [] else [Point(x, y0), Point(x, y1)] + RowPair(x + 1, x1, y0, y1)
  }

  /** Rows lo..=hi on columns ux0 and ux1, as the tail loop of the fill paints them. */
  function ColumnPair(ux0: int, ux1: int, y: int, hi: int): seq<Point>
    decreases hi - y + 1
  {
    if y > hi then [] else [Point(ux0, y), Point(ux1, y)] + ColumnPair(ux0, ux1, y + 1, hi)
  }

  function FillMainCells(passes: seq<Corners>): seq<Point>
  {
    if |passes| == 0 then []
    else
      var c := passes[0];
      RowPair(c.x0, c.x1, c.y0, c.y1) + FillMainCells(passes[1..])
  }

  /** The tail of the fill, rows y1..=y0 of each pass. */
  function FillTailCells(passes: seq<Corners>): seq<Point>
  {
    if |passes| == 0 then []
    else
      var c := passes[0];
      ColumnPair(c.x0, c.x1, c.y1, c.y0) + FillTailCells(passes[1..])
  }

  /** The main loop of the fill as written: columns x0..=x1 are a `usize`
      range, so a pass whose left column is negative paints no row at all.
      Its columns have not crossed, so x1 >= x0 and the upper bound only
      wraps when the lower one does. */
  function FillMainCellsAsWritten(passes: seq<Corners>): seq<Point>
  {
    if |passes| == 0 then []
    else
      var c := passes[0];
      (if RangeReachesGrid(c.x0) then RowPair(c.x0, c.x1, c.y0, c.y1) else [])
        + FillMainCellsAsWritten(passes[1..])
  }

  /** The tail of the fill as written: rows y0..=y1 of each pass, again a
      `usize` range. Once the rows have crossed it is empty, unless y1 has
      gone below row 0 while y0 has not: then the upper bound wraps
      (`UsizeBound`) and the range runs on from y0 (`WrapsRows`). */
  function FillTailCellsAsWritten(passes: seq<Corners>): seq<Point>
  {
    if |passes| == 0 then []
    else
      var c := passes[0];
      (if RangeReachesGrid(c.y0) then ColumnPair(c.x0, c.x1, c.y0, UsizeBound(c.y1)) else [])
        + FillTailCellsAsWritten(passes[1..])
  }

  /** The tail passes as `stroke_ellipse` and `fill_ellipse` write them. */
  function TailOfAsWritten(k: EllipseParams): seq<Corners>
  {
    var e := Exit(k);
    TailPasses(k, e.x0, e.x1, e.y0, e.y1)
  }

  /** A pass whose row y1 lies above row 0 while y0 does not: the fill's
      range y0..=y1 then has a wrapped upper bound. */
  predicate WrapsRows(c: Corners)
  {
    c.y1 < 0 <= c.y0
  }

  /** On the wrapped row range of a pass: column x0 or x1, on any row from y0
      to 2^64 + y1. */
  predicate OnWrappedSpan(c: Corners, p: Point)
  {
    WrapsRows(c) && c.y0 <= p.y <= UsizeBound(c.y1) && (p.x == c.x0 || p.x == c.x1)
  }

  /** Whether some as-written tail pass of the box wraps its rows. */
  predicate TailWraps(k: EllipseParams)
  {
    exists c :: c in TailOfAsWritten(k) && WrapsRows(c)
  }

  function TailOf(k: EllipseParams): seq<Corners>
  {
    var e := Exit(k);
    TailPasses(k, e.x0 - 1, e.x1 + 1, e.y0, e.y1)
  }

  /** The corrected stroke: Zingl's tail columns. */
  function StrokeEllipseCells(position: Point, size: Size): seq<Point>
  {
    StrokeCells(Passes(Params(position, size)))
  }

  /** The corrected fill: Zingl's tail columns, the tail's rows y1..=y0, and
      every range read over exact integers, so a box reaching past row or
      column 0 is clipped by the grid rather than losing whole spans. */
  function FillEllipseCells(position: Point, size: Size): seq<Point>
  {
    var k := Params(position, size);
    InitialInv(k);
    FillMainCells(MainPasses(k, Initial(k))) + FillTailCells(TailOf(k))
  }

  /** The cells `stroke_ellipse` paints, in the order it paints them. */
  function StrokeEllipseCellsAsWritten(position: Point, size: Size): (r: seq<Point>)
    ensures forall p :: p in r ==> InWideBox(Params(position, size), p)
  {
    var k := Params(position, size);
    var passes := PassesAsWritten(k);
    forall p | p in StrokeCells(passes)
      ensures InWideBox(k, p)
    {
      StrokeCellsMembers(passes, p);
      var c :| c in passes && p in CornerCells(c);
      CornerInBox(k, c, p);
    }
    StrokeCells(passes)
  }

  /** The cells `fill_ellipse` paints, in the order it paints them. Each
      lies in the widened box or on the wrapped span of a tail pass, and every
      cell of such a span is painted. */
  function FillEllipseCellsAsWritten(position: Point, size: Size): (r: seq<Point>)
    ensures var k := Params(position, size);
      forall p :: p in r ==> InWideBox(k, p) || exists c :: c in TailOfAsWritten(k) && OnWrappedSpan(c, p)
    ensures var k := Params(position, size);
      forall c, p :: c in TailOfAsWritten(k) && OnWrappedSpan(c, p) ==> p in r
  {
    var k := Params(position, size);
    InitialInv(k);
    var e := Exit(k);
    var main, tail := MainPasses(k, Initial(k)), TailPasses(k, e.x0, e.x1, e.y0, e.y1);
    assert PassesAsWritten(k) == main + tail;
    var cells := FillMainCellsAsWritten(main) + FillTailCellsAsWritten(tail);
    forall p | p in cells
      ensures InWideBox(k, p) || exists c :: c in tail && OnWrappedSpan(c, p)
    {
      FillAsWrittenPlaced(k, main, tail, p);
    }
    forall c, p | c in tail && OnWrappedSpan(c, p)
      ensures p in cells
    {
      WrappedSpanFilled(tail, c, p);
    }
    cells
  }

  /** The `*_from_center` variants: the box's top-left corner is the centre
      minus half of each diameter, rounded down. */
  function FromCenter(center: Point, size: Size): Point
  {
    Sub(center, Point(size.width / 2, size.height / 2))
  }

  // ---------------------------------------------------------------------------
  // Properties of the passes

  predicate InBox(k: EllipseParams, p: Point)
  {
    k.px <= p.x <= k.px + k.w && k.py <= p.y <= k.py + k.h
  }

  /** Reflection in the box's vertical centre line. */
  function MirrorX(k: EllipseParams, p: Point): Point
  {
    Point(2 * k.px + k.w - p.x, p.y)
  }

  /** Reflection in the box's horizontal centre line. */
  function MirrorY(k: EllipseParams, p: Point): Point
  {
    Point(p.x, 2 * k.py + k.h - p.y)
  }

  /** A pass's columns and rows are placed symmetrically about the box's
      centre lines. */
  predicate Centred(k: EllipseParams, c: Corners)
  {
    c.x0 + c.x1 == 2 * k.px + k.w && c.y0 + c.y1 == 2 * k.py + k.h
  }

  /** A pass works inside the box, centred, with x0 <= x1 and y1 <= y0. */
  predicate PassOk(k: EllipseParams, c: Corners)
  {
    && k.px <= c.x0 <= c.x1 <= k.px + k.w && k.py <= c.y1 <= c.y0 <= k.py + k.h
    && Centred(k, c)
  }

  /** How far the as-written tail reaches past the box's sides: one column
      for a zero-width box, none otherwise. */
  function Slack(k: EllipseParams): nat
  {
    if k.w == 0 then 1 else 0
  }

  /** The box, widened by `Slack` columns on each side. */
  predicate InWideBox(k: EllipseParams, p: Point)
  {
    k.px - Slack(k) <= p.x <= k.px + k.w + Slack(k) && k.py <= p.y <= k.py + k.h
  }

  /** A pass as the as-written loops make it: centred, rows inside the box
      with y1 <= y0, and columns inside the widened box in either order. */
  predicate PassAsWrittenOk(k: EllipseParams, c: Corners)
  {
    && Centred(k, c) && k.py <= c.y1 <= c.y0 <= k.py + k.h
    && k.px - Slack(k) <= c.x0 <= k.px + k.w + Slack(k)
    && k.px - Slack(k) <= c.x1 <= k.px + k.w + Slack(k)
  }

  /** A pass of the main loop lies in the box, symmetric about its centre. */
  lemma PassInBox(k: EllipseParams, s: EllipseState)
    requires Inv(k, s) && s.x0 <= s.x1
    ensures PassOk(k, Corners(s.x0, s.y0, s.x1, s.y1))
  {
    assert 2 * ((k.h + 1) / 2) == k.h + Parity(k);
  }

  lemma {:induction false} MainPassesOk(k: EllipseParams, s: EllipseState)
    requires Inv(k, s)
    ensures forall c :: c in MainPasses(k, s) ==> PassOk(k, c)
    decreases Measure(k, s)
  {
    if s.x0 <= s.x1 {
      PassInBox(k, s);
      StepKeepsInv(k, s);
      MainPassesOk(k, Step(k, s));
      assert MainPasses(k, s) == [Corners(s.x0, s.y0, s.x1, s.y1)] + MainPasses(k, Step(k, s));
    }
  }

  lemma {:induction false} TailPassesOk(k: EllipseParams, ux0: int, ux1: int, y0: int, y1: int)
    requires k.px <= ux0 <= ux1 <= k.px + k.w && ux0 + ux1 == 2 * k.px + k.w
    requires y0 + y1 == 2 * k.py + k.h && y1 <= y0
    ensures forall c :: c in TailPasses(k, ux0, ux1, y0, y1) ==> PassOk(k, c)
    decreases k.h - (y0 - y1)
  {
    if y0 - y1 < k.h {
      TailPassesOk(k, ux0, ux1, y0 + 1, y1 - 1);
    }
  }

  /** As written, the tail paints the exit columns, which the main loop has
      moved past each other but no further than the widened box. */
  lemma ExitColumnsInWideBox(k: EllipseParams)
    ensures k.px - Slack(k) <= Exit(k).x1 < Exit(k).x0 <= k.px + k.w + Slack(k)
    ensures Exit(k).x0 + Exit(k).x1 == 2 * k.px + k.w
    ensures Exit(k).y0 + Exit(k).y1 == 2 * k.py + k.h && Exit(k).y1 <= Exit(k).y0
  {
    TailStartsSymmetric(k);
  }

  lemma {:induction false} TailPassesAsWrittenOk(k: EllipseParams, ux0: int, ux1: int, y0: int, y1: int)
    requires k.px - Slack(k) <= ux0 <= k.px + k.w + Slack(k) && ux0 + ux1 == 2 * k.px + k.w
    requires y0 + y1 == 2 * k.py + k.h && y1 <= y0
    ensures forall c :: c in TailPasses(k, ux0, ux1, y0, y1) ==> PassAsWrittenOk(k, c)
    decreases k.h - (y0 - y1)
  {
    if y0 - y1 < k.h {
      TailPassesAsWrittenOk(k, ux0, ux1, y0 + 1, y1 - 1);
    }
  }

  /** Corrected: every pass of both loops, and hence every painted cell,
      stays in the box and is placed symmetrically about the centre lines. */
  lemma PassesOk(k: EllipseParams)
    ensures forall c :: c in Passes(k) ==> PassOk(k, c)
  {
    InitialInv(k);
    MainPassesOk(k, Initial(k));
    var e := Exit(k);
    TailStartsSymmetric(k);
    TailPassesOk(k, e.x0 - 1, e.x1 + 1, e.y0, e.y1);
  }

  /** The tail starts from rows placed symmetrically about the middle, and
      grows them by two per pass until they span the height. */
  lemma TailStartsSymmetric(k: EllipseParams)
    ensures Exit(k).x0 > Exit(k).x1 && Exit(k).x0 <= Exit(k).x1 + 2
    ensures Exit(k).x0 + Exit(k).x1 == 2 * k.px + k.w
    ensures Exit(k).y0 + Exit(k).y1 == 2 * k.py + k.h && Exit(k).y1 <= Exit(k).y0
  {
    InvSymmetric(k, Exit(k));
  }

  /** The linear consequences of the invariant. */
  lemma InvSymmetric(k: EllipseParams, s: EllipseState)
    requires Inv(k, s)
    ensures s.x0 + s.x1 == 2 * k.px + k.w && s.x0 <= s.x1 + 2
    ensures s.y0 + s.y1 == 2 * k.py + k.h && s.y1 <= s.y0
  {
  }

  lemma {:induction false} TailPassesSpan(k: EllipseParams, ux0: int, ux1: int, y0: int, y1: int)
    ensures forall n :: 0 <= n < |TailPasses(k, ux0, ux1, y0, y1)| ==>
      TailPasses(k, ux0, ux1, y0, y1)[n] == Corners(ux0, y0 + n, ux1, y1 - n)
    ensures |TailPasses(k, ux0, ux1, y0, y1)| > 0 ==> (y0 - y1) + 2 * (|TailPasses(k, ux0, ux1, y0, y1)| - 1) < k.h
    decreases k.h - (y0 - y1)
  {
    if y0 - y1 < k.h {
      TailPassesSpan(k, ux0, ux1, y0 + 1, y1 - 1);
    }
  }

  // ---------------------------------------------------------------------------
  // Properties of the painted cells

  lemma {:induction false} StrokeCellsMembers(passes: seq<Corners>, p: Point)
    ensures p in StrokeCells(passes) <==> exists c :: c in passes && p in CornerCells(c)
  {
    if |passes| > 0 {
      StrokeCellsMembers(passes[1..], p);
      assert forall c :: c in passes <==> c == passes[0] || c in passes[1..];
    }
  }

  lemma {:induction false} RowPairMembers(x: int, x1: int, y0: int, y1: int, p: Point)
    ensures p in RowPair(x, x1, y0, y1) <==> x <= p.x <= x1 && (p.y == y0 || p.y == y1)
    decreases x1 - x + 1
  {
    if x <= x1 {
      RowPairMembers(x + 1, x1, y0, y1, p);
    }
  }

  lemma {:induction false} ColumnPairMembers(ux0: int, ux1: int, y: int, hi: int, p: Point)
    ensures p in ColumnPair(ux0, ux1, y, hi) <==> y <= p.y <= hi && (p.x == ux0 || p.x == ux1)
    decreases hi - y + 1
  {
    if y <= hi {
      ColumnPairMembers(ux0, ux1, y + 1, hi, p);
    }
  }

  lemma {:induction false} FillMainMembers(passes: seq<Corners>, p: Point)
    ensures p in FillMainCells(passes) <==>
      exists c :: c in passes && c.x0 <= p.x <= c.x1 && (p.y == c.y0 || p.y == c.y1)
  {
    if |passes| > 0 {
      var c := passes[0];
      RowPairMembers(c.x0, c.x1, c.y0, c.y1, p);
      FillMainMembers(passes[1..], p);
      assert forall c :: c in passes <==> c == passes[0] || c in passes[1..];
    }
  }

  lemma {:induction false} FillTailMembers(passes: seq<Corners>, p: Point)
    ensures p in FillTailCells(passes) <==>
      exists c :: c in passes && c.y1 <= p.y <= c.y0 && (p.x == c.x0 || p.x == c.x1)
  {
    if |passes| > 0 {
      var c := passes[0];
      ColumnPairMembers(c.x0, c.x1, c.y1, c.y0, p);
      FillTailMembers(passes[1..], p);
      assert forall c :: c in passes <==> c == passes[0] || c in passes[1..];
    }
  }

  lemma {:induction false} FillMainAsWrittenMembers(passes: seq<Corners>, p: Point)
    ensures p in FillMainCellsAsWritten(passes) <==>
      exists c :: c in passes && 0 <= c.x0 <= p.x <= c.x1 && (p.y == c.y0 || p.y == c.y1)
  {
    if |passes| > 0 {
      var c := passes[0];
      RowPairMembers(c.x0, c.x1, c.y0, c.y1, p);
      FillMainAsWrittenMembers(passes[1..], p);
      assert forall c :: c in passes <==> c == passes[0] || c in passes[1..];
    }
  }

  lemma {:induction false} FillTailAsWrittenMembers(passes: seq<Corners>, p: Point)
    ensures p in FillTailCellsAsWritten(passes) <==>
      exists c :: c in passes && 0 <= c.y0 <= p.y <= UsizeBound(c.y1) && (p.x == c.x0 || p.x == c.x1)
  {
    if |passes| > 0 {
      var c := passes[0];
      ColumnPairMembers(c.x0, c.x1, c.y0, UsizeBound(c.y1), p);
      FillTailAsWrittenMembers(passes[1..], p);
      assert forall c :: c in passes <==> c == passes[0] || c in passes[1..];
    }
  }

  /** A cell of the main loop's as-written fill lies in the widened box, and
      its mirror images are cells of that loop's fill. A cell of the tail's
      has its mirror across the vertical centre line in the tail's fill; it
      lies in the widened box with its other mirror image in the tail's fill
      too, unless it is on the wrapped span of a pass. */
  lemma FillAsWrittenPlaced(k: EllipseParams, main: seq<Corners>, tail: seq<Corners>, p: Point)
    requires forall c :: c in main + tail ==> PassAsWrittenOk(k, c)
    requires p in FillMainCellsAsWritten(main) + FillTailCellsAsWritten(tail)
    ensures p in FillMainCellsAsWritten(main) ==>
      InWideBox(k, p) && MirrorX(k, p) in FillMainCellsAsWritten(main) && MirrorY(k, p) in FillMainCellsAsWritten(main)
    ensures p in FillTailCellsAsWritten(tail) ==> MirrorX(k, p) in FillTailCellsAsWritten(tail)
    ensures p in FillTailCellsAsWritten(tail) ==>
      || (InWideBox(k, p) && MirrorY(k, p) in FillTailCellsAsWritten(tail))
      || exists c :: c in tail && OnWrappedSpan(c, p)
  {
    if p in FillMainCellsAsWritten(main) {
      FillMainAsWrittenMembers(main, p);
      var c :| c in main && 0 <= c.x0 <= p.x <= c.x1 && (p.y == c.y0 || p.y == c.y1);
      assert c in main + tail;
      FillMainAsWrittenMembers(main, MirrorX(k, p));
      FillMainAsWrittenMembers(main, MirrorY(k, p));
    }
    if p in FillTailCellsAsWritten(tail) {
      FillTailAsWrittenMembers(tail, p);
      var c :| c in tail && 0 <= c.y0 <= p.y <= UsizeBound(c.y1) && (p.x == c.x0 || p.x == c.x1);
      assert c in main + tail;
      FillTailAsWrittenMembers(tail, MirrorX(k, p));
      if WrapsRows(c) {
        assert OnWrappedSpan(c, p);
      } else {
        FillTailAsWrittenMembers(tail, MirrorY(k, p));
      }
    }
  }

  /** Every cell on the wrapped span of a tail pass is a cell of the
      as-written tail fill. */
  lemma WrappedSpanFilled(tail: seq<Corners>, c: Corners, p: Point)
    requires c in tail && OnWrappedSpan(c, p)
    ensures p in FillTailCellsAsWritten(tail)
  {
    FillTailAsWrittenMembers(tail, p);
  }

  lemma {:induction false} StrokeCellsAppend(a: seq<Corners>, b: seq<Corners>)
    ensures StrokeCells(a + b) == StrokeCells(a) + StrokeCells(b)
  {
    if |a| > 0 {
      StrokeCellsAppend(a[1..], b);
      assert (a + b)[1..] == a[1..] + b;
    } else {
      assert a + b == b;
    }
  }

  /** The four cells of a pass lie in the box when the pass does, and in the
      widened box when the as-written pass does. */
  lemma CornerInBox(k: EllipseParams, c: Corners, p: Point)
    requires p in CornerCells(c)
    ensures PassOk(k, c) ==> InBox(k, p)
    ensures PassAsWrittenOk(k, c) ==> InWideBox(k, p)
  {
  }

  /** The four cells of a centred pass are each other's mirror images. */
  lemma CornerMirrored(k: EllipseParams, c: Corners, p: Point)
    requires Centred(k, c) && p in CornerCells(c)
    ensures MirrorX(k, p) in CornerCells(c) && MirrorY(k, p) in CornerCells(c)
  {
    var cells := CornerCells(c);
    if p == cells[0] {
      assert MirrorX(k, p) == cells[2] && MirrorY(k, p) == cells[1];
    } else if p == cells[1] {
      assert MirrorX(k, p) == cells[3] && MirrorY(k, p) == cells[0];
    } else if p == cells[2] {
      assert MirrorX(k, p) == cells[0] && MirrorY(k, p) == cells[3];
    } else {
      assert p == cells[3];
      assert MirrorX(k, p) == cells[1] && MirrorY(k, p) == cells[2];
    }
  }

  lemma StrokeCellMirrored(k: EllipseParams, passes: seq<Corners>, p: Point)
    requires forall c :: c in passes ==> Centred(k, c)
    requires p in StrokeCells(passes)
    ensures MirrorX(k, p) in StrokeCells(passes) && MirrorY(k, p) in StrokeCells(passes)
    ensures (forall c :: c in passes ==> PassOk(k, c)) ==> InBox(k, p)
    ensures (forall c :: c in passes ==> PassAsWrittenOk(k, c)) ==> InWideBox(k, p)
  {
    StrokeCellsMembers(passes, p);
    var c :| c in passes && p in CornerCells(c);
    CornerMirrored(k, c, p);
    CornerInBox(k, c, p);
    StrokeCellsMembers(passes, MirrorX(k, p));
    StrokeCellsMembers(passes, MirrorY(k, p));
  }

  /** Corrected: the stroke stays in the box [x, x + width] x [y, y + height]
      and is mirror-symmetric about both of the box's centre lines. */
  lemma StrokeEllipseSymmetricInBox(position: Point, size: Size)
    ensures forall p :: p in StrokeEllipseCells(position, size) ==>
      var k := Params(position, size);
      InBox(k, p) && MirrorX(k, p) in StrokeEllipseCells(position, size)
      && MirrorY(k, p) in StrokeEllipseCells(position, size)
  {
    var k := Params(position, size);
    PassesOk(k);
    forall p | p in StrokeCells(Passes(k))
      ensures InBox(k, p) && MirrorX(k, p) in StrokeCells(Passes(k)) && MirrorY(k, p) in StrokeCells(Passes(k))
    {
      StrokeCellMirrored(k, Passes(k), p);
    }
  }

  /** Corrected: the fill stays in the box and is mirror-symmetric about both
      centre lines. */
  lemma FillEllipseSymmetricInBox(position: Point, size: Size)
    ensures forall p :: p in FillEllipseCells(position, size) ==>
      var k := Params(position, size);
      InBox(k, p) && MirrorX(k, p) in FillEllipseCells(position, size)
      && MirrorY(k, p) in FillEllipseCells(position, size)
  {
    var k := Params(position, size);
    InitialInv(k);
    var main, tail := MainPasses(k, Initial(k)), TailOf(k);
    PassesOk(k);
    assert Passes(k) == main + tail;
    forall p | p in FillMainCells(main)
      ensures InBox(k, p) && MirrorX(k, p) in FillMainCells(main) && MirrorY(k, p) in FillMainCells(main)
    {
      FillMainMembers(main, p);
      var c :| c in main && c.x0 <= p.x <= c.x1 && (p.y == c.y0 || p.y == c.y1);
      assert c in Passes(k);
      FillMainMembers(main, MirrorX(k, p));
      FillMainMembers(main, MirrorY(k, p));
    }
    forall p | p in FillTailCells(tail)
      ensures InBox(k, p) && MirrorX(k, p) in FillTailCells(tail) && MirrorY(k, p) in FillTailCells(tail)
    {
      FillTailMembers(tail, p);
      var c :| c in tail && c.y1 <= p.y <= c.y0 && (p.x == c.x0 || p.x == c.x1);
      assert c in Passes(k);
      FillTailMembers(tail, MirrorX(k, p));
      FillTailMembers(tail, MirrorY(k, p));
    }
  }

  /** Every cell the corrected stroke paints, the corrected fill paints too. */
  lemma MainCornersFilled(k: EllipseParams, main: seq<Corners>, p: Point)
    requires forall c :: c in main ==> PassOk(k, c)
    requires p in StrokeCells(main)
    ensures p in FillMainCells(main)
  {
    StrokeCellsMembers(main, p);
    var c :| c in main && p in CornerCells(c);
    FillMainMembers(main, p);
  }

  lemma TailCornersFilled(k: EllipseParams, tail: seq<Corners>, p: Point)
    requires forall c :: c in tail ==> PassOk(k, c)
    requires p in StrokeCells(tail)
    ensures p in FillTailCells(tail)
  {
    StrokeCellsMembers(tail, p);
    var c :| c in tail && p in CornerCells(c);
    FillTailMembers(tail, p);
  }

  lemma FillCoversStroke(position: Point, size: Size)
    ensures forall p :: p in StrokeEllipseCells(position, size) ==> p in FillEllipseCells(position, size)
  {
    var k := Params(position, size);
    InitialInv(k);
    var main, tail := MainPasses(k, Initial(k)), TailOf(k);
    PassesOk(k);
    assert Passes(k) == main + tail;
    StrokeCellsAppend(main, tail);
    forall p | p in StrokeEllipseCells(position, size)
      ensures p in FillEllipseCells(position, size)
    {
      if p in StrokeCells(main) {
        MainCornersFilled(k, main, p);
      } else {
        TailCornersFilled(k, tail, p);
      }
    }
  }

  /** The centred variants draw a box whose centre lines pass through the
      given centre (half a cell to the right or below for odd diameters). */
  lemma FromCenterSymmetric(center: Point, size: Size, p: Point)
    ensures var k := Params(FromCenter(center, size), size);
      && MirrorX(k, p) == Point(2 * center.x + size.width % 2 - p.x, p.y)
      && MirrorY(k, p) == Point(p.x, 2 * center.y + size.height % 2 - p.y)
  {
    assert size.width == 2 * (size.width / 2) + size.width % 2;
    assert size.height == 2 * (size.height / 2) + size.height % 2;
  }

  // ---------------------------------------------------------------------------
  // Ellipses whose main loop ends after one pass

  /** A loop that ends after one pass paints that pass alone. */
  lemma SinglePass(k: EllipseParams, s: EllipseState)
    requires Inv(k, s) && s.x0 <= s.x1 && Step(k, s).x0 > Step(k, s).x1
    ensures MainPasses(k, s) == [Corners(s.x0, s.y0, s.x1, s.y1)]
    ensures MainExit(k, s) == Step(k, s)
  {
    StepKeepsInv(k, s);
  }

  /** Width 0, positive height: the one pass moves the columns apart, to
      x - 1 and x + 1, without a row step. */
  lemma ZeroWidthPass(k: EllipseParams)
    requires k.w == 0 && k.h >= 1
    ensures Inv(k, Initial(k))
    ensures MainPasses(k, Initial(k)) == [Corners(k.px, Middle(k), k.px, Middle(k) - Parity(k))]
    ensures Exit(k) == ColumnStep(k, Initial(k))
  {
    InitialInv(k);
    var s := Initial(k);
    SquarePositive(k.h);
    MulMono(1, 4, Square(k.h));
    MulOne(Square(k.h));
    assert Square(k.w) == 0;
    assert s.dy == 0 && s.err == s.dx && s.dx > 0;
    assert Step(k, s) == ColumnStep(k, s);
    SinglePass(k, s);
  }

  /** Width 1, even height: the one pass paints the middle row and swaps the
      two columns, without a row step. */
  lemma UnitWidthPass(k: EllipseParams)
    requires k.w == 1 && Parity(k) == 0
    ensures Inv(k, Initial(k))
    ensures MainPasses(k, Initial(k)) == [Corners(k.px, Middle(k), k.px + 1, Middle(k))]
    ensures Exit(k) == ColumnStep(k, Initial(k))
  {
    InitialInv(k);
    var s := Initial(k);
    assert Square(k.w) == 1;
    MulByOne(4);
    assert s.dx == 0 && s.dy == 4 && s.err == 4;
    assert Step(k, s) == ColumnStep(k, s);
    SinglePass(k, s);
  }

  // ---------------------------------------------------------------------------
  // The tail loop as canvas.rs writes it

  /** As written, the tail paints the exit columns x0 and x1, which have
      already crossed over the ones the main loop last painted: every ellipse
      of width 0 and height at least 2 paints a cell left of its box. */
  lemma StrokeEllipseAsWrittenLeavesBox(position: Point, size: Size)
    requires size.width == 0 && size.height >= 2
    ensures var p := Point(position.x - 1, position.y + (size.height + 1) / 2);
      p in StrokeEllipseCellsAsWritten(position, size) && !InBox(Params(position, size), p)
  {
    var k := Params(position, size);
    var p := Point(position.x - 1, position.y + (size.height + 1) / 2);
    ZeroWidthPass(k);
    var m, c := Middle(k), Parity(k);
    var first := Corners(k.px + 1, m, k.px - 1, m - c);
    var tail := TailPasses(k, k.px + 1, k.px - 1, m, m - c);
    assert tail == [first] + TailPasses(k, k.px + 1, k.px - 1, m + 1, m - c - 1);
    var passes := PassesAsWritten(k);
    assert passes == MainPasses(k, Initial(k)) + tail;
    assert first in passes;
    StrokeCellsMembers(passes, p);
    assert p in CornerCells(first);
  }

  /** As written, the stroke is still mirror-symmetric about both of the
      box's centre lines, and it stays in the box widened by `Slack`: inside
      the box itself whenever the width is positive. */
  lemma StrokeEllipseAsWrittenSymmetric(position: Point, size: Size)
    ensures forall p :: p in StrokeEllipseCellsAsWritten(position, size) ==>
      var k := Params(position, size);
      InWideBox(k, p) && MirrorX(k, p) in StrokeEllipseCellsAsWritten(position, size)
      && MirrorY(k, p) in StrokeEllipseCellsAsWritten(position, size)
  {
    var k := Params(position, size);
    var passes := PassesAsWritten(k);
    forall p | p in StrokeCells(passes)
      ensures InWideBox(k, p) && MirrorX(k, p) in StrokeCells(passes) && MirrorY(k, p) in StrokeCells(passes)
    {
      StrokeCellMirrored(k, passes, p);
    }
  }

  /** As written, the fill is mirror-symmetric about the vertical centre
      line. A cell off the wrapped spans of the tail also lies in the widened
      box, with its mirror image across the horizontal centre line filled
      too; so for a box that leaves no tail pass wrapping its rows, the whole
      fill is symmetric about both centre lines and stays in the widened box. */
  lemma FillEllipseAsWrittenSymmetric(position: Point, size: Size)
    ensures forall p :: p in FillEllipseCellsAsWritten(position, size) ==>
      var k := Params(position, size);
      && MirrorX(k, p) in FillEllipseCellsAsWritten(position, size)
      && (|| (InWideBox(k, p) && MirrorY(k, p) in FillEllipseCellsAsWritten(position, size))
          || exists c :: c in TailOfAsWritten(k) && OnWrappedSpan(c, p))
  {
    var k := Params(position, size);
    InitialInv(k);
    var e := Exit(k);
    var main, tail := MainPasses(k, Initial(k)), TailPasses(k, e.x0, e.x1, e.y0, e.y1);
    assert PassesAsWritten(k) == main + tail;
    var cells := FillMainCellsAsWritten(main) + FillTailCellsAsWritten(tail);
    assert FillEllipseCellsAsWritten(position, size) == cells;
    forall p | p in cells
      ensures MirrorX(k, p) in cells
      ensures (InWideBox(k, p) && MirrorY(k, p) in cells) || exists c :: c in tail && OnWrappedSpan(c, p)
    {
      FillAsWrittenPlaced(k, main, tail, p);
    }
  }

  /** A box at or below row 0 leaves no tail pass wrapping its rows: every
      tail pass has y1 above the box's top row. So only a position that has
      itself wrapped below zero reaches the wrapped spans. */
  lemma TailWrapsOnlyAboveRowZero(position: Point, size: Size)
    ensures TailWraps(Params(position, size)) ==> position.y < 0
  {
    var k := Params(position, size);
    ExitColumnsInWideBox(k);
    var e := Exit(k);
    TailPassesRows(k, e.x0, e.x1, e.y0, e.y1);
  }

  /** Every tail pass is centred on the box's rows, with y1 strictly below
      the top row of the box. */
  lemma {:induction false} TailPassesRows(k: EllipseParams, ux0: int, ux1: int, y0: int, y1: int)
    requires y0 + y1 == 2 * k.py + k.h && y1 <= y0
    ensures forall c :: c in TailPasses(k, ux0, ux1, y0, y1) ==> c.y1 > k.py && c.y0 >= c.y1
    decreases k.h - (y0 - y1)
  {
    if y0 - y1 < k.h {
      TailPassesRows(k, ux0, ux1, y0 + 1, y1 - 1);
    }
  }

  /** The three passes of the main loop for a box of width 2 and height 7,
      as states before and after, with x and y the box's top-left corner. */
  predicate WrappingBoxPass(x: int, y: int, s: EllipseState, r: EllipseState)
  {
    || (s == EllipseState(x, y + 4, x + 2, y + 3, -196, 32, -160)
        && r == EllipseState(x, y + 5, x + 2, y + 2, -196, 64, -96))
    || (s == EllipseState(x, y + 5, x + 2, y + 2, -196, 64, -96)
        && r == EllipseState(x + 1, y + 6, x + 1, y + 1, 196, 96, 196))
    || (s == EllipseState(x + 1, y + 6, x + 1, y + 1, 196, 96, 196)
        && r == EllipseState(x + 2, y + 6, x, y + 1, 588, 96, 784))
  }

  /** The main loop's initial state for a box of width 2 and height 7. */
  lemma WrappingBoxInitial(k: EllipseParams)
    requires k.w == 2 && k.h == 7
    ensures Initial(k) == EllipseState(k.px, k.py + 4, k.px + 2, k.py + 3, -196, 32, -160)
  {
    SquareIsProduct(k.w);
    SquareIsProduct(k.h);
    MulIsProduct(4 * (1 - k.w), Square(k.h));
    MulIsProduct(4 * (Parity(k) + 1), Square(k.w));
    MulIsProduct(Parity(k), Square(k.w));
  }

  /** One pass of the main loop for a box of width 2 and height 7. */
  lemma WrappingBoxStep(k: EllipseParams, s: EllipseState, r: EllipseState)
    requires k.w == 2 && k.h == 7 && WrappingBoxPass(k.px, k.py, s, r)
    ensures Step(k, s) == r
  {
    SquareIsProduct(k.w);
    SquareIsProduct(k.h);
  }

  /** A pass of the main loop keeps the invariant and leaves the exit state
      unchanged. */
  lemma MainExitStep(k: EllipseParams, s: EllipseState, r: EllipseState)
    requires Inv(k, s) && s.x0 <= s.x1 && Step(k, s) == r
    ensures Inv(k, r) && MainExit(k, s) == MainExit(k, r)
  {
    StepKeepsInv(k, s);
  }

  /** The main loop of a box of width 2 and height 7 leaves with its
      columns crossed, x + 2 and x, and its rows at y + 6 and y + 1. */
  lemma WrappingBoxExit(k: EllipseParams)
    requires k.w == 2 && k.h == 7
    ensures Exit(k) == EllipseState(k.px + 2, k.py + 6, k.px, k.py + 1, 588, 96, 784)
  {
    var x, y := k.px, k.py;
    var s0 := EllipseState(x, y + 4, x + 2, y + 3, -196, 32, -160);
    var s1 := EllipseState(x, y + 5, x + 2, y + 2, -196, 64, -96);
    var s2 := EllipseState(x + 1, y + 6, x + 1, y + 1, 196, 96, 196);
    var s3 := EllipseState(x + 2, y + 6, x, y + 1, 588, 96, 784);
    InitialInv(k);
    WrappingBoxInitial(k);
    WrappingBoxStep(k, s0, s1);
    WrappingBoxStep(k, s1, s2);
    WrappingBoxStep(k, s2, s3);
    MainExitStep(k, s0, s1);
    MainExitStep(k, s1, s2);
    MainExitStep(k, s2, s3);
    assert MainExit(k, s3) == s3;
  }

  /** A box of width 2 and height 7 with its top row at -2: its one tail pass
      has rows 4 and -1 and wraps them, and the fill paints column x + 2 at
      row 6, below the box. */
  lemma FillEllipseAsWrittenWrapsBelowBox(position: Point, size: Size)
    requires position.y == -2 && size == Size(2, 7)
    ensures TailWraps(Params(position, size))
    ensures Point(position.x + 2, 6) in FillEllipseCellsAsWritten(position, size)
    ensures !InWideBox(Params(position, size), Point(position.x + 2, 6))
  {
    var k := Params(position, size);
    WrappingBoxExit(k);
    var t := Corners(k.px + 2, 4, k.px, -1);
    assert TailPasses(k, k.px + 2, k.px, 4, -1) == [t] + TailPasses(k, k.px + 2, k.px, 5, -2);
    assert TailOfAsWritten(k) == TailPasses(k, k.px + 2, k.px, 4, -1);
    assert t in TailOfAsWritten(k) && OnWrappedSpan(t, Point(k.px + 2, 6));
  }

  /** Once the rows have crossed, every cell the as-written fill tail paints
      lies on column ux0 or ux1 at row y0 or further down, on the wrapped span
      of a pass; for a centred box at or below row 0 there is no such span, and
      the tail paints nothing. */
  lemma {:induction false} CrossedRowsFillNothing(k: EllipseParams, ux0: int, ux1: int, y0: int, y1: int)
    requires y0 > y1
    ensures forall p :: p in FillTailCellsAsWritten(TailPasses(k, ux0, ux1, y0, y1)) ==>
      y0 <= p.y && (p.x == ux0 || p.x == ux1)
    ensures y0 + y1 == 2 * k.py + k.h && k.py >= 0 ==> FillTailCellsAsWritten(TailPasses(k, ux0, ux1, y0, y1)) == []
    decreases k.h - (y0 - y1)
  {
    if y0 - y1 < k.h {
      CrossedRowsFillNothing(k, ux0, ux1, y0 + 1, y1 - 1);
      var t := TailPasses(k, ux0, ux1, y0, y1);
      assert t[1..] == TailPasses(k, ux0, ux1, y0 + 1, y1 - 1);
      forall p | p in ColumnPair(ux0, ux1, y0, UsizeBound(y1))
        ensures y0 <= p.y && (p.x == ux0 || p.x == ux1)
      {
        ColumnPairMembers(ux0, ux1, y0, UsizeBound(y1), p);
      }
      if y0 + y1 == 2 * k.py + k.h && k.py >= 0 {
        assert UsizeBound(y1) == y1;
      }
    }
  }

  /** Two passes of the tail loop, unfolded. */
  lemma TailTwoPasses(k: EllipseParams, ux0: int, ux1: int, y0: int, y1: int)
    requires y0 - y1 + 2 < k.h
    ensures TailPasses(k, ux0, ux1, y0, y1)
      == [Corners(ux0, y0, ux1, y1), Corners(ux0, y0 + 1, ux1, y1 - 1)] + TailPasses(k, ux0, ux1, y0 + 2, y1 - 2)
  {
    var second := TailPasses(k, ux0, ux1, y0 + 1, y1 - 1);
    assert TailPasses(k, ux0, ux1, y0, y1) == [Corners(ux0, y0, ux1, y1)] + second;
    assert second == [Corners(ux0, y0 + 1, ux1, y1 - 1)] + TailPasses(k, ux0, ux1, y0 + 2, y1 - 2);
  }

  /** The as-written tail of a width 1, even height ellipse, in terms of
      its first two passes. */
  lemma UnitWidthTail(k: EllipseParams)
    requires k.w == 1 && Parity(k) == 0 && k.h >= 4
    ensures var m, x0, x1 := Middle(k), k.px + 1, k.px;
      && PassesAsWritten(k) == [Corners(k.px, m, k.px + 1, m)] + TailPasses(k, x0, x1, m, m)
      && TailPasses(k, x0, x1, m, m)
        == [Corners(x0, m, x1, m), Corners(x0, m + 1, x1, m - 1)] + TailPasses(k, x0, x1, m + 2, m - 2)
  {
    UnitWidthPass(k);
    var m := Middle(k);
    var e := Exit(k);
    assert e.x0 == k.px + 1 && e.x1 == k.px && e.y0 == m && e.y1 == m;
    TailTwoPasses(k, k.px + 1, k.px, m, m);
  }

  /** As written, the tail of the fill runs over rows y0..=y1, which is empty
      once y0 > y1: every ellipse of width 1 and even height of at least 4
      has a cell the stroke paints and the fill misses. */
  lemma FillEllipseAsWrittenMissesStroke(position: Point, size: Size)
    requires size.width == 1 && size.height % 2 == 0 && size.height >= 4
    ensures var p := Point(position.x, position.y + size.height / 2 - 1);
      p in StrokeEllipseCellsAsWritten(position, size) && p !in FillEllipseCellsAsWritten(position, size)
  {
    var k := Params(position, size);
    var p := Point(position.x, position.y + size.height / 2 - 1);
    UnitWidthPass(k);
    UnitWidthTail(k);
    var m, x0, x1 := Middle(k), k.px + 1, k.px;
    var second := TailPasses(k, x0, x1, m + 1, m - 1);
    StrokePaintsBelowMiddle(k, p);
    CrossedRowsFillNothing(k, x0, x1, m + 1, m - 1);
    var firstRow := if RangeReachesGrid(m) then ColumnPair(x0, x1, m, UsizeBound(m)) else [];
    assert FillTailCellsAsWritten(TailPasses(k, x0, x1, m, m)) == firstRow + FillTailCellsAsWritten(second);
    ColumnPairMembers(x0, x1, m, UsizeBound(m), p);
    FillMainAsWrittenMembers([Corners(k.px, m, k.px + 1, m)], p);
  }

  lemma StrokePaintsBelowMiddle(k: EllipseParams, p: Point)
    requires k.w == 1 && Parity(k) == 0 && k.h >= 4
    requires p == Point(k.px, Middle(k) - 1)
    ensures p in StrokeCells(PassesAsWritten(k))
  {
    UnitWidthTail(k);
    var m := Middle(k);
    var c := Corners(k.px + 1, m + 1, k.px, m - 1);
    var passes := PassesAsWritten(k);
    assert c in passes;
    StrokeCellsMembers(passes, p);
    assert p in CornerCells(c);
  }
}
