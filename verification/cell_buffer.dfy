/** The cell grid: a row-major sequence of cells whose length is always
    width * height, with bounds-checked point <-> index mapping and the writes
    built on it. Positions outside the grid are never an error: reads give
    `None` and writes leave the buffer as it was. */
module CellBuffers {
  import opened Wrappers
  import opened Points
  import opened Sizes
  import opened Colors
  import opened Cells

  datatype CellBuffer = CellBuffer(size: Size, cells: seq<Cell>)

  /** The one invariant every operation keeps: one cell per grid slot. */
  predicate Valid(b: CellBuffer)
  {
    |b.cells| == b.size.width * b.size.height
  }

  predicate InBounds(size: Size, p: Point)
  {
    0 <= p.x < size.width && 0 <= p.y < size.height
  }

  // ---------------------------------------------------------------------------
  // Row-major arithmetic

  lemma RowMajorBound(x: int, y: int, w: nat, h: nat)
    requires 0 <= x < w && 0 <= y < h
    ensures 0 <= x + w * y < w * h
  {
    assert w * y <= w * (h - 1) by { MulMono(w, y, h - 1); }
    assert w * (h - 1) == w * h - w;
  }

  lemma MulMono(w: nat, a: int, b: int)
    requires a <= b
    ensures w * a <= w * b
  {
    assert w * b - w * a == w * (b - a);
  }

  lemma AbsMulAtLeast(w: nat, k: int)
    requires k != 0
    ensures w * k >= w || w * k + w <= 0
  {
    if k > 0 { MulMono(w, 1, k); } else { MulMono(w, k, -1); }
  }

  /** Row-major indices of distinct in-range points are distinct. */
  lemma RowMajorInjective(p: Point, q: Point, w: nat, h: nat)
    requires 0 <= p.x < w && 0 <= p.y < h
    requires 0 <= q.x < w && 0 <= q.y < h
    requires p.x + w * p.y == q.x + w * q.y
    ensures p == q
  {
    // Equal indices put the rows w * |p.y - q.y| = |q.x - p.x| < w apart.
    assert w * (p.y - q.y) == q.x - p.x;
    if p.y != q.y {
      AbsMulAtLeast(w, p.y - q.y);
    }
  }

  /** Division by the width undoes the row-major layout. */
  lemma RowMajorDivMod(x: int, y: int, w: nat)
    requires 0 <= x < w && 0 <= y
    ensures (x + w * y) % w == x && (x + w * y) / w == y
  {
    var i := x + w * y;
    var q, r := i / w, i % w;
    assert i == w * q + r && 0 <= r < w;
    // Both decompositions of i put the quotients w * |q - y| = |x - r| < w apart.
    assert w * (q - y) == x - r;
    if q != y {
      AbsMulAtLeast(w, q - y);
    }
  }

  // ---------------------------------------------------------------------------
  // Construction

  /** A buffer of `size` holding `default_cell` in every slot. */
  function New(defaultCell: Cell, size: Size): (b: CellBuffer)
    ensures Valid(b) && b.size == size
    ensures |b.cells| == size.width * size.height
    ensures forall i :: 0 <= i < |b.cells| ==> b.cells[i] == defaultCell
  {
    CellBuffer(size, seq(size.width * size.height, _ => defaultCell))
  }

  /** Resizing to the current size keeps everything; any other size discards
      all previous contents. */
  function Resize(b: CellBuffer, defaultCell: Cell, newSize: Size): (r: CellBuffer)
    requires Valid(b)
    ensures Valid(r) && r.size == newSize
    ensures newSize == b.size ==> r == b
    ensures newSize != b.size ==> forall i :: 0 <= i < |r.cells| ==> r.cells[i] == defaultCell
  {
    if newSize == b.size then b
    else New(defaultCell, newSize)
  }

  // ---------------------------------------------------------------------------
  // Point <-> index

  /** The flat index of `p`, absent exactly when `p` lies outside the grid. */
  function IndexOf(b: CellBuffer, p: Point): (r: Option<nat>)
    ensures Valid(b) ==> (r.None? <==> !InBounds(b.size, p))
    ensures r.Some? ==> InBounds(b.size, p) && r.value == p.x + b.size.width * p.y && r.value < |b.cells|
  {
    if p.x < 0 || p.y < 0 || p.x >= b.size.width || p.y >= b.size.height then None
    else
      RowMajorBound(p.x, p.y, b.size.width, b.size.height);
      var index := p.x + b.size.width * p.y;
      if index >= |b.cells| then None
      else Some(index)
  }

  /** The point at flat index `i`; absent only for a zero-area grid (the
      index itself is not range-checked). */
  function CoordinatesOf(b: CellBuffer, index: nat): (r: Option<Point>)
    ensures r.None? <==> (b.size.width == 0 || b.size.height == 0)
    ensures r.Some? ==> 0 <= r.value.x < b.size.width && r.value.x + b.size.width * r.value.y == index
  {
    if b.size.width == 0 || b.size.height == 0 then None
    else Some(Point(index % b.size.width, index / b.size.width))
  }

  lemma CoordinatesOfIndexOf(b: CellBuffer, p: Point)
    requires Valid(b) && InBounds(b.size, p)
    ensures IndexOf(b, p).Some?
    ensures CoordinatesOf(b, IndexOf(b, p).value) == Some(p)
  {
    RowMajorDivMod(p.x, p.y, b.size.width);
  }

  lemma IndexOfCoordinatesOf(b: CellBuffer, index: nat)
    requires Valid(b) && index < |b.cells|
    ensures CoordinatesOf(b, index).Some?
    ensures InBounds(b.size, CoordinatesOf(b, index).value)
    ensures IndexOf(b, CoordinatesOf(b, index).value) == Some(index)
  {
    var w, h := b.size.width, b.size.height;
    assert w != 0 && h != 0;
    var p := CoordinatesOf(b, index).value;
    if p.y >= h {
      MulMono(w, h, p.y);
      assert false;
    }
  }

  // ---------------------------------------------------------------------------
  // Single-cell access

  function Get(b: CellBuffer, p: Point): (r: Option<Cell>)
    requires Valid(b)
    ensures r.None? <==> !InBounds(b.size, p)
    ensures r.Some? ==> r.value == b.cells[IndexOf(b, p).value]
  {
    match IndexOf(b, p)
    case Some(index) => Some(b.cells[index])
    case None => None
  }

  /** Writes one cell; outside the grid this changes nothing, inside it
      changes exactly the addressed cell. */
  function Set(b: CellBuffer, p: Point, cell: Cell): (r: CellBuffer)
    requires Valid(b)
    ensures Valid(r) && r.size == b.size
    ensures !InBounds(b.size, p) ==> r == b
    ensures forall q :: Get(r, q) == (if q == p && InBounds(b.size, p) then Some(cell) else Get(b, q))
  {
    match IndexOf(b, p)
    case None => b
    case Some(index) =>
      var r := b.(cells := b.cells[index := cell]);
      assert forall q | InBounds(b.size, q) && q != p :: q.x + b.size.width * q.y != index by {
        forall q | InBounds(b.size, q) && q != p
          ensures q.x + b.size.width * q.y != index
        {
          if q.x + b.size.width * q.y == index {
            RowMajorInjective(p, q, b.size.width, b.size.height);
          }
        }
      }
      r
  }

  // ---------------------------------------------------------------------------
  // Runs of cells

  /** Number of characters `write_str` places from flat index `start`: it stops
      after the last cell of the buffer (wrapping across row ends before that). */
  function Written(textLength: nat, cellCount: nat, start: nat): nat
    requires start < cellCount
  {
    if textLength < cellCount - start then textLength else cellCount - start
  }

  /** Writes `text` from `position` onwards, one character per consecutive flat
      index, restyling each touched cell; a start outside the grid is a no-op. */
  method WriteStr(b: CellBuffer, text: string, position: Point, foreground: Color, background: Color)
    returns (r: CellBuffer)
    requires Valid(b)
    ensures Valid(r) && r.size == b.size
    ensures !InBounds(b.size, position) ==> r == b
    ensures InBounds(b.size, position) ==>
      var start := IndexOf(b, position).value;
      var n := Written(|text|, |b.cells|, start);
      forall i :: 0 <= i < |r.cells| ==>
        r.cells[i] == if start <= i < start + n then Cells.New(text[i - start], foreground, background) else b.cells[i]
  {
    r := b;
    var found := IndexOf(b, position);
    if found.None? {
      return;
    }
    var bufferIndex := found.value;
    ghost var start := bufferIndex;
    ghost var n := Written(|text|, |b.cells|, start);
    var k := 0;
    while k < |text|
      invariant 0 <= k <= n && bufferIndex == start + k && bufferIndex < |r.cells|
      invariant Valid(r) && r.size == b.size
      invariant forall i :: 0 <= i < |r.cells| ==>
        r.cells[i] == if start <= i < start + k then Cells.New(text[i - start], foreground, background) else b.cells[i]
    {
      r := r.(cells := r.cells[bufferIndex := Cells.New(text[k], foreground, background)]);
      bufferIndex := bufferIndex + 1;
      k := k + 1;
      if bufferIndex >= |r.cells| {
        return;
      }
    }
  }

  /** Writes `length` copies of `cell` from `position` along flat indices,
      stopping at the end of the buffer; a start outside the grid is a no-op. */
  method RepeatCell(b: CellBuffer, cell: Cell, position: Point, length: nat) returns (r: CellBuffer)
    requires Valid(b)
    ensures Valid(r) && r.size == b.size
    ensures !InBounds(b.size, position) ==> r == b
    ensures InBounds(b.size, position) ==>
      var start := IndexOf(b, position).value;
      forall i :: 0 <= i < |r.cells| ==>
        r.cells[i] == if start <= i < start + length then cell else b.cells[i]
  {
    r := b;
    var found := IndexOf(b, position);
    if found.None? {
      return;
    }
    var bufferIndex := found.value;
    var index := 0;
    while index < length
      invariant 0 <= index <= length
      invariant Valid(r) && r.size == b.size
      invariant forall i :: 0 <= i < |r.cells| ==>
        r.cells[i] == if bufferIndex <= i < bufferIndex + index then cell else b.cells[i]
    {
      if bufferIndex + index >= |r.cells| {
        return;
      }
      r := r.(cells := r.cells[bufferIndex + index := cell]);
      index := index + 1;
    }
  }

  // ---------------------------------------------------------------------------
  // Blit

  /** The destination cell at `q` after copying `source` with its origin at
      `position`: the source cell when `q` is covered by both grids. */
  function Blitted(b: CellBuffer, source: CellBuffer, position: Point, q: Point): Option<Cell>
    requires Valid(b) && Valid(source)
  {
    if InBounds(b.size, q) && InBounds(source.size, Sub(q, position)) then Get(source, Sub(q, position))
    else Get(b, q)
  }

  /** The part of the blit done once rows before `row`, and columns before
      `column` of row `row`, have been copied. */
  function PartlyBlitted(b: CellBuffer, source: CellBuffer, position: Point, row: int, column: int, q: Point): Option<Cell>
    requires Valid(b) && Valid(source)
  {
    var s := Sub(q, position);
    if s.y < row || (s.y == row && s.x < column) then Blitted(b, source, position, q) else Get(b, q)
  }

  /** Copies `source` onto the buffer with its origin at `position`, clipping
      whatever falls outside; every other cell is unchanged. */
  method WriteCellBuffer(b: CellBuffer, source: CellBuffer, position: Point) returns (r: CellBuffer)
    requires Valid(b) && Valid(source)
    ensures Valid(r) && r.size == b.size
    ensures forall q :: Get(r, q) == Blitted(b, source, position, q)
  {
    var width: int := source.size.width;
    var height: int := source.size.height;
    var selfWidth: int := b.size.width;
    var selfHeight: int := b.size.height;
    r := b;
    var cby := 0;
    while cby < height
      invariant 0 <= cby <= height
      invariant Valid(r) && r.size == b.size
      invariant forall q :: Get(r, q) == PartlyBlitted(b, source, position, cby, 0, q)
    {
      var destinationY := position.y + cby;
      if destinationY >= selfHeight {
        break;
      }
      var cbx := 0;
      while cbx < width
        invariant 0 <= cbx <= width
        invariant Valid(r) && r.size == b.size
        invariant forall q :: Get(r, q) == PartlyBlitted(b, source, position, cby, cbx, q)
      {
        var destinationX := position.x + cbx;
        if destinationX >= selfWidth {
          break;
        }
        // The source read cannot fail for a valid source buffer, so the
        // early return the original takes on a missing cell is unreachable.
        var cell := Get(source, Point(cbx, cby)).value;
        r := Set(r, Point(destinationX, destinationY), cell);
        cbx := cbx + 1;
      }
      assert forall q :: Get(r, q) == PartlyBlitted(b, source, position, cby + 1, 0, q);
      cby := cby + 1;
    }
  }
}
