# tokterm core, modelled in Dafny

tokterm is a terminal toolkit. An application draws into a grid of
character cells and reads keyboard, mouse and window events, and three
backends (the Windows console, ncurses and termion) put this on a real
terminal. This project models the engine of the toolkit's core library and
the pure translation code inside the three backends, and proves properties
of that model:

- **Geometry and cells.** `Points`, `Sizes`, `Colors`, `Cells`.
- **The cell grid.** `CellBuffers`: a row-major sequence of cells whose
  length is always width × height, together with:
  - the point ↔ index mapping;
  - single-cell reads and writes;
  - string writes, runs of one cell and the blit of one buffer onto another.
- **The canvas.** `Canvases`: a pen position, optional stroke and fill paints,
  and the drawing calls. Each drawing call is the rasterizer's cell sequence
  folded through `CellBuffer::set`. The rasterizers each have a module, and
  each yields its cells in the order the drawing loops paint them:
  - `LineRaster`: the all-octant Bresenham walk of `line_to`.
  - `RectRaster`: the outline as four chained lines, and the fill as rows.
  - `CircleRaster`: the midpoint circle.
  - `EllipseRaster`: the four-way-symmetric ellipse, with its main loop and
    its tail loop. The tail is modelled twice: as `canvas.rs` writes it,
    which is what the canvas paints, and corrected to Zingl's algorithm
    (see "## Findings"), in separately named members.
  - `Rasters`: vocabulary shared by the rasterizers.
- **Events.** `Events` holds the event records. `EventQueues` is the FIFO
  queue. `KeyboardStates` is the 175-entry table of held keys, with its
  forced overwrite of the six modifier entries. `MouseStates` is the last
  reported mouse state.
- **Backend translations.** These are total functions of the values their
  foreign calls produce:
  - `WindowsColors`, `UnixColors` and `TermionColors`: colour codes.
  - `WindowsInput`: virtual-key codes, the wheel delta, UTF-16 code units,
    and the mapping of mouse and key records into events.
  - `NCursesInput`: `wgetch` codes, characters, and the press/release latches
    kept between mouse reports.
  - `TermionInput`: termion's key and mouse events.
  - `BackendAgreement`: the Windows and termion key tables agree with the
    corrected ncurses table wherever they name the same key. The ncurses
    table as written agrees with neither (see "## Findings").

Keys are numbered by the slot the keyboard table keeps for them:
- `None` is 0 and the six modifiers are 1 to 6;
- every other key follows, in the order the Windows table first names it;
- only the keys some backend produces are declared, so every number is below 175.

`src/tokterm_core/src/input/key.rs`, the key enum and its `to_u32`, is not
part of this model.

Coordinates are unbounded integers and extents are natural numbers. A point
outside a buffer's grid is not an error: a read gives `None`, and a write
leaves the buffer as it was.

`line_to` paints the pen's cell and stops before the target, so the target
is never painted (`LineRaster.LineNeverPaintsTargetOrRepeats`). The outline of `stroke_rect`
relies on this, because each side's line leaves its last corner to the next
side.

Coordinates are `usize` in the source, and the drawing code relies on
wrapping arithmetic. Where it computes a single point, the wrap gives back
the exact value, which the model uses. The fills, though, loop over
inclusive `usize` ranges: the columns and rows of `fill_rect`
(canvas.rs:302-303), each span of `fill_circle` (canvas.rs:372), and the
rows and columns of `fill_ellipse` (canvas.rs:508, 537). A range whose
lower bound has wrapped past zero is empty, or covers only off-grid values,
so the whole span is lost, including any part of it that lies on the grid.
The model follows the code (`Rasters.RangeReachesGrid`). For example, a
circle of radius 4 centred on row 2 is filled only on rows 0 to 4
(`CircleRaster.FillCircleKeepsToCentreBand`).

The upper bound can wrap too, in the tail of `fill_ellipse`. Its rows y0
and y1 are `i32`, and a pass that has crossed them paints `y0 as
usize..=y1 as usize`. Once y1 is above row 0 and y0 is not, `y1 as usize`
is 2^64 + y1 on a 64-bit target. The range then runs from y0 over every grid
row below it, and on for nearly 2^64 values. This needs a box that starts
above row 0, which for a `usize` position means one that has itself
wrapped (`EllipseRaster.TailWrapsOnlyAboveRowZero`). The model paints
exactly those rows, on both tail columns (`Rasters.UsizeBound`,
`EllipseRaster.OnWrappedSpan`). A box of width 2 and height 7 with its top
row at −2 paints row 6, below the box
(`EllipseRaster.FillEllipseAsWrittenWrapsBelowBox`).

## Model

| member | source | states |
|---|---|---|
| Points.AddIsCommutativeWithIdentity | src/tokterm_core/src/drawing/point_2d.rs:13-19 | `add` adds coordinatewise, is commutative, and has `empty()` as its identity on both sides |
| Points.AddAxisSeparately | src/tokterm_core/src/drawing/point_2d.rs:17-27 | `add_x` changes only x and `add_y` only y; `add_y` after `add_x` equals `add` of `new(a, b)`; `Points.Sub` models the `sub` that canvas.rs:395 and 473 call, which point_2d.rs does not define, and it undoes that `add` |
| Points.EqualToIsEquality | src/tokterm_core/src/drawing/point_2d.rs:29-31 | `equal_to` holds exactly when the two points are equal, so it is reflexive and symmetric |
| Points.IsEmptyIffOrigin | src/tokterm_core/src/drawing/point_2d.rs:13-35 | `is_empty` holds exactly at the origin, and `empty()` is empty |
| Sizes.AddIsCommutativeWithIdentity | src/tokterm_core/src/drawing/size_2d.rs:13-22 | `add` adds componentwise, is commutative, and has `empty()` as its identity |
| Sizes.AddOneExtent | src/tokterm_core/src/drawing/size_2d.rs:24-30 | `add_width` changes only the width and `add_height` only the height; applied in turn they equal `add` |
| Sizes.EqualToIsEquality | src/tokterm_core/src/drawing/size_2d.rs:32-34 | `equal_to` holds exactly when both extents are equal; it is reflexive and symmetric |
| Sizes.IsEmptyIffBothZero | src/tokterm_core/src/drawing/size_2d.rs:13-38 | empty means both extents are zero: `empty()` is empty and a 0×5 size is not |
| Cells.New | src/tokterm_core/src/drawing/cell.rs:4-18 | the character is stored unchanged, and the foreground and background arguments land in their own fields, although the record declares background first |
| Cells.NewDefault | src/tokterm_core/src/drawing/cell.rs:20-26 | the default cell is `new(c, Grey, Black)`: grey foreground, black background, character unchanged |
| CellBuffers.New | src/tokterm_core/src/drawing/cell_buffer.rs:16-21 | a new buffer has exactly width × height cells, each equal to the default cell |
| CellBuffers.Resize | src/tokterm_core/src/drawing/cell_buffer.rs:28-35 | resizing to the current size changes nothing; any other size replaces the contents with that size's number of default cells |
| CellBuffers.IndexOf | src/tokterm_core/src/drawing/cell_buffer.rs:38-53 | no index exactly when x < 0, y < 0, x ≥ width or y ≥ height; otherwise the index is x + width·y and lies below the cell count |
| CellBuffers.CoordinatesOf | src/tokterm_core/src/drawing/cell_buffer.rs:56-65 | no point exactly for a zero-width or zero-height grid; otherwise a point with an in-grid column whose row-major index is the input |
| CellBuffers.CoordinatesOfIndexOf | src/tokterm_core/src/drawing/cell_buffer.rs:38-65 | for every in-grid point p, `coordinates_of(index_of(p)) == p` |
| CellBuffers.IndexOfCoordinatesOf | src/tokterm_core/src/drawing/cell_buffer.rs:38-65 | for every index below the cell count, `coordinates_of` gives an in-grid point whose `index_of` is that index |
| CellBuffers.Get | src/tokterm_core/src/drawing/cell_buffer.rs:68-73 | a read is absent exactly outside the grid; inside, it is the cell at the point's index |
| CellBuffers.Set | src/tokterm_core/src/drawing/cell_buffer.rs:76-83 | outside the grid a write changes nothing; inside it, a read of the written point returns the new cell and every other point reads as before; the length invariant holds |
| CellBuffers.WriteStr | src/tokterm_core/src/drawing/cell_buffer.rs:85-118 | a start outside the grid changes nothing; otherwise character k, in the given colours, goes to flat index start + k for k < min(text length, cells − start), wrapping across row ends; every other cell is unchanged |
| CellBuffers.RepeatCell | src/tokterm_core/src/drawing/cell_buffer.rs:120-133 | a start outside the grid changes nothing; otherwise exactly the flat indices from start to min(start + length, cell count) hold the cell, and every other cell is unchanged |
| CellBuffers.WriteCellBuffer | src/tokterm_core/src/drawing/cell_buffer.rs:135-163 | each destination cell covered by both grids (source origin at `position`) takes the source cell; every other destination cell is unchanged; the size is kept |
| Canvases.PaintCell | src/tokterm_core/src/drawing/canvas.rs:21-26 | a solid paint is a buffer write: off the grid nothing changes, and on the grid exactly the addressed cell takes the paint's cell |
| Canvases.New | src/tokterm_core/src/drawing/canvas.rs:36-47 | a new canvas has its pen at the origin and keeps the given buffer and paints |
| Canvases.SetStroke | src/tokterm_core/src/drawing/canvas.rs:50-52 | installs the stroke paint and changes nothing else |
| Canvases.SetFill | src/tokterm_core/src/drawing/canvas.rs:55-57 | installs the fill paint and changes nothing else |
| Canvases.MoveTo | src/tokterm_core/src/drawing/canvas.rs:60-62 | moves the pen and changes nothing else |
| Canvases.LineTo | src/tokterm_core/src/drawing/canvas.rs:64-102 | without a stroke: the line error and an unchanged canvas, pen included; with one: success, exactly the line's cells painted, and the pen on the target |
| Canvases.StrokeRect | src/tokterm_core/src/drawing/canvas.rs:271-289 | without a stroke: the rectangle error and an unchanged canvas; with one: exactly the four chained lines around the corners painted, and the pen back on the origin corner |
| Canvases.OutlineIsPolyline | src/tokterm_core/src/drawing/canvas.rs:280-288 | the four `line_to` calls from the origin corner through the other corners and back paint exactly the outline's cells, in order |
| Canvases.FillRect | src/tokterm_core/src/drawing/canvas.rs:291-309 | without a fill: the fill error and an unchanged canvas; with one: the fill's cells painted (the inclusive rectangle's rows when its corner is at or past row and column 0, nothing otherwise), and the pen where it was |
| Canvases.StrokeCircle | src/tokterm_core/src/drawing/canvas.rs:311-313 | the circle drawn from a top-left position is the centred one about position + (r, r) |
| Canvases.StrokeCircleFromCenter | src/tokterm_core/src/drawing/canvas.rs:315-351 | without a stroke: the circle error and an unchanged canvas; with one: exactly the midpoint circle's cells painted, and the pen kept |
| Canvases.FillCircle | src/tokterm_core/src/drawing/canvas.rs:353-355 | the filled circle from a top-left position is the centred one about position + (r, r) |
| Canvases.FillCircleFromCenter | src/tokterm_core/src/drawing/canvas.rs:357-391 | without a fill: the fill error and an unchanged canvas; with one: exactly the circle's spans painted, except spans whose top row would lie above row 0, which are dropped whole; the pen is kept |
| Canvases.StrokeEllipseFromCenter | src/tokterm_core/src/drawing/canvas.rs:393-398 | the centred ellipse is the one whose box corner is centre − (w/2, h/2) |
| Canvases.StrokeEllipse | src/tokterm_core/src/drawing/canvas.rs:400-469 | without a stroke: the ellipse error and an unchanged canvas; with one: exactly the cells of both loops as written painted (the tail on the crossed exit columns), and the pen kept |
| Canvases.StrokeEllipseCorrected | src/tokterm_core/src/drawing/canvas.rs:400-469 | corrected: as `StrokeEllipse`, with the tail on columns x0 − 1 and x1 + 1 |
| Canvases.FillEllipseFromCenter | src/tokterm_core/src/drawing/canvas.rs:471-476 | the centred filled ellipse is the one whose box corner is centre − (w/2, h/2) |
| Canvases.FillEllipse | src/tokterm_core/src/drawing/canvas.rs:478-547 | without a fill: the fill error and an unchanged canvas; with one: exactly the cells of both loops as written painted (the tail on the crossed exit columns and rows y0..=y1, each span a `usize` range), and the pen kept |
| Canvases.FillEllipseCorrected | src/tokterm_core/src/drawing/canvas.rs:478-547 | corrected: as `FillEllipse`, with the tail on columns x0 − 1 and x1 + 1 over rows y1..=y0, every span over exact integers |
| Canvases.LineToEndpoints | src/tokterm_core/src/drawing/canvas.rs:81-101 | a line succeeds and leaves the pen on the target; it paints the pen's cell when pen and target differ and the pen is on the grid; it never changes the target's cell |
| Canvases.LineToSelfPaintsNothing | src/tokterm_core/src/drawing/canvas.rs:81-98 | a line from the pen to itself leaves the buffer as it was |
| Canvases.StrokeRectPaintsOutline | src/tokterm_core/src/drawing/canvas.rs:271-289 | with width and height ≥ 1, the cells that change are exactly the in-grid border cells of [x, x+w] × [y, y+h], and the pen ends on the origin corner |
| Canvases.FillRectPaintsRectangle | src/tokterm_core/src/drawing/canvas.rs:291-309 | with the corner at or past row and column 0, the cells that change are exactly the in-grid cells of the inclusive rectangle; with the corner beyond either, nothing changes; the pen does not move |
| Canvases.StrokeCircleStaysInSquare | src/tokterm_core/src/drawing/canvas.rs:315-351 | no cell outside the square of side 2r about the centre changes |
| Canvases.StrokeEllipseStaysInBox | src/tokterm_core/src/drawing/canvas.rs:400-469 | no cell outside the ellipse's box [x, x+w] × [y, y+h] changes; for width 0 the box is one column wider on each side, which the tail as written reaches |
| Canvases.FillEllipseStaysInBox | src/tokterm_core/src/drawing/canvas.rs:478-547 | outside the same box, widened for width 0, a cell changes only if it is on the wrapped span of a tail pass and on the grid, and then it holds the fill's cell |
| Canvases.FillEllipseCoversStroke | src/tokterm_core/src/drawing/canvas.rs:400-547 | corrected: filling an ellipse after stroking it with the same cell gives the same buffer as filling alone, so the corrected fill covers the corrected outline |
| LineRaster.NoOvershoot | src/tokterm_core/src/drawing/canvas.rs:87-97 | the error term never lets the walk step past the target on an axis it has reached, and every pass steps on at least one axis |
| LineRaster.StepKeepsInv | src/tokterm_core/src/drawing/canvas.rs:81-98 | each pass keeps the loop invariant; it moves at most one cell on each axis, stays in the box between the current cell and the target, and lowers the distance to the target, so the loop terminates |
| LineRaster.InitialInv | src/tokterm_core/src/drawing/canvas.rs:70-79 | the initial deltas, step signs and error term satisfy the loop invariant |
| LineRaster.LineStartsAtPen | src/tokterm_core/src/drawing/canvas.rs:81-98 | nothing is painted exactly when pen and target coincide; otherwise the pen's cell is painted first |
| LineRaster.LineNeverPaintsTargetOrRepeats | src/tokterm_core/src/drawing/canvas.rs:81-98 | the target is never painted, and no cell is painted twice |
| LineRaster.LineIsConnectedInBox | src/tokterm_core/src/drawing/canvas.rs:81-98 | consecutive painted cells are 8-neighbours, the last one is an 8-neighbour of the target, and all lie in the box spanned by pen and target |
| LineRaster.HorizontalLine | src/tokterm_core/src/drawing/canvas.rs:81-98 | a horizontal line paints the \|x1−x0\| cells from the pen toward the target |
| LineRaster.VerticalLine | src/tokterm_core/src/drawing/canvas.rs:81-98 | a vertical line paints the \|y1−y0\| cells from the pen toward the target |
| RectRaster.StrokeRectIsOutline | src/tokterm_core/src/drawing/canvas.rs:271-289 | with width and height ≥ 1, the outline has 2(w+h) cells, each border cell of the inclusive rectangle exactly once, and no other cell |
| RectRaster.FillRectIsRectangle | src/tokterm_core/src/drawing/canvas.rs:291-309 | with the corner at or past row and column 0, the fill has (w+1)(h+1) cells, each cell of the inclusive rectangle exactly once, and no other cell; with the corner beyond either it has none |
| CircleRaster.StepKeepsInv | src/tokterm_core/src/drawing/canvas.rs:328-348 | each pass keeps the error term equal to (x+1)² + (y+1)² − r² with the offset in its quarter box; it steps each coordinate by at most one and lowers a non-negative measure, so the loop terminates |
| CircleRaster.OffsetsInQuarter | src/tokterm_core/src/drawing/canvas.rs:324-348 | every offset the loop visits has −r ≤ x ≤ 0 and 0 ≤ y ≤ r |
| CircleRaster.CircleStartsOnAxis | src/tokterm_core/src/drawing/canvas.rs:324-332 | the loop runs at least once, and its first offset is (−r, 0) |
| CircleRaster.StrokeCircleExtremes | src/tokterm_core/src/drawing/canvas.rs:328-335 | the four axis extremes (cx ± r, cy) and (cx, cy ± r) are painted |
| CircleRaster.StrokeCircleSymmetric | src/tokterm_core/src/drawing/canvas.rs:315-351 | the painted cell set is closed under quarter turns about the centre, and it contains the four axis extremes |
| CircleRaster.StrokeCircleInBox | src/tokterm_core/src/drawing/canvas.rs:315-351 | every painted cell lies in the square of side 2r about the centre |
| CircleRaster.FillCircleSymmetric | src/tokterm_core/src/drawing/canvas.rs:357-391 | the filled cell set is mirror-symmetric about both centre lines |
| CircleRaster.FillCircleKeepsToCentreBand | src/tokterm_core/src/drawing/canvas.rs:370-375 | every filled cell lies on rows 0 to 2·cy, because a span whose top would lie above row 0 is dropped whole |
| EllipseRaster.InitialInv | src/tokterm_core/src/drawing/canvas.rs:406-422 | the initial columns, rows, increments and error term satisfy the main loop's invariant |
| EllipseRaster.StepKeepsInv | src/tokterm_core/src/drawing/canvas.rs:424-450 | each pass of the main loop keeps the invariant (closed forms of the increments and error in the numbers of column and row steps) and lowers a non-negative measure, so the loop terminates |
| EllipseRaster.MainExit | src/tokterm_core/src/drawing/canvas.rs:424-450 | the main loop ends with the columns crossed and the invariant holding |
| EllipseRaster.TailStartsSymmetric | src/tokterm_core/src/drawing/canvas.rs:450-455 | after the main loop, the columns have crossed by one or two and the rows are symmetric about the box's middle, with y1 ≤ y0 |
| EllipseRaster.PassesOk | src/tokterm_core/src/drawing/canvas.rs:424-466 | corrected: every pass of both loops works inside the box, on columns and rows placed symmetrically about its centre lines |
| EllipseRaster.ExitColumnsInWideBox | src/tokterm_core/src/drawing/canvas.rs:450-455 | the exit columns the tail as written paints have crossed, are centred on the box, and lie inside it, or one column outside it for width 0 |
| EllipseRaster.PassesAsWritten | src/tokterm_core/src/drawing/canvas.rs:424-466 | as written: every pass of both loops is centred on the box, with its rows inside the box and its columns inside the box widened by one column for width 0 |
| EllipseRaster.StrokeEllipseCellsAsWritten | src/tokterm_core/src/drawing/canvas.rs:424-466 | as written: every outline cell lies in the box, widened by one column on each side for width 0 |
| EllipseRaster.FillEllipseCellsAsWritten | src/tokterm_core/src/drawing/canvas.rs:502-544 | as written: every filled cell lies in the same widened box or on the wrapped span of a tail pass, and every cell of such a span is filled |
| EllipseRaster.StrokeEllipseAsWrittenSymmetric | src/tokterm_core/src/drawing/canvas.rs:400-469 | as written: the outline is mirrored about both of the box's centre lines and stays in the widened box |
| EllipseRaster.FillEllipseAsWrittenSymmetric | src/tokterm_core/src/drawing/canvas.rs:478-547 | as written: the fill, with its `usize` spans, is mirrored about the vertical centre line; every cell off the wrapped spans also lies in the widened box and is mirrored about the horizontal centre line |
| EllipseRaster.StrokeEllipseSymmetricInBox | src/tokterm_core/src/drawing/canvas.rs:400-469 | corrected: every outline cell lies in the box and is mirrored about both centre lines |
| EllipseRaster.FillEllipseSymmetricInBox | src/tokterm_core/src/drawing/canvas.rs:478-547 | corrected: every filled cell lies in the box and is mirrored about both centre lines |
| EllipseRaster.FillCoversStroke | src/tokterm_core/src/drawing/canvas.rs:400-547 | corrected: every cell the corrected outline paints, the corrected fill paints too |
| EllipseRaster.FromCenterSymmetric | src/tokterm_core/src/drawing/canvas.rs:393-398 | the centred variants' mirror lines pass through the given centre, half a cell right or below it for odd diameters |
| EllipseRaster.StrokeEllipseAsWrittenLeavesBox | src/tokterm_core/src/drawing/canvas.rs:452-466 | as written, the tail paints the crossed exit columns: every ellipse of width 0 and height ≥ 2 paints a cell left of its box |
| EllipseRaster.CrossedRowsFillNothing | src/tokterm_core/src/drawing/canvas.rs:533-544 | as written, once y0 > y1 the fill tail paints only on its two columns at rows y0 and beyond, which come from wrapped spans; for a centred box at or below row 0 the range y0..=y1 stays empty and the tail paints nothing |
| EllipseRaster.FillEllipseAsWrittenMissesStroke | src/tokterm_core/src/drawing/canvas.rs:530-544 | as written, every ellipse of width 1 and even height ≥ 4 has a cell its outline paints and its fill misses |
| EllipseRaster.TailWrapsOnlyAboveRowZero | src/tokterm_core/src/drawing/canvas.rs:530-544 | as written, a tail pass wraps its rows only for a box whose top row is above row 0 |
| EllipseRaster.WrappingBoxExit | src/tokterm_core/src/drawing/canvas.rs:502-528 | the main loop of a box of width 2 and height 7 ends with its columns crossed, at x + 2 and x, and its rows at y + 6 and y + 1 |
| EllipseRaster.FillEllipseAsWrittenWrapsBelowBox | src/tokterm_core/src/drawing/canvas.rs:530-544 | as written, a box of width 2 and height 7 with its top row at −2 has a tail pass that wraps, and the fill paints column x + 2 on row 6, outside the widened box |
| EventQueues.New | src/tokterm_core/src/events/event_queue.rs:12-17 | a new queue holds no event, and its counter is zero |
| EventQueues.AddEvent | src/tokterm_core/src/events/event_queue.rs:19-21 | the queue grows by one: the event is at the back, the earlier events are kept in order, and the counter is unchanged |
| EventQueues.GetEvent | src/tokterm_core/src/events/event_queue.rs:23-25 | nothing comes out exactly when the queue is empty, and then the queue is unchanged; otherwise the front event comes out and the rest stay in order; the counter is unchanged |
| EventQueues.Drain | src/tokterm_core/src/events/event_queue.rs:23-25 | calling `get_event` until it yields nothing delivers the queued events in queue order |
| EventQueues.AddAll | src/tokterm_core/src/events/event_queue.rs:19-21 | successive `add_event` calls append the events in order; the counter is unchanged |
| EventQueues.NewQueueIsEmpty | src/tokterm_core/src/events/event_queue.rs:12-25 | a new queue gives nothing from `get_event` |
| EventQueues.DrainYieldsInsertionOrder | src/tokterm_core/src/events/event_queue.rs:19-25 | draining a new queue after any adds yields the events in insertion order, whatever their kinds |
| EventQueues.ReplayIsFifo | src/tokterm_core/src/events/event_queue.rs:19-25 | under any interleaving of adds and gets, the events received followed by those still queued are exactly the initial queue followed by the events added |
| KeyboardStates.New | src/tokterm_core/src/input/keyboard_state.rs:9-11 | all 175 entries are released |
| KeyboardStates.UpdateFromEvent | src/tokterm_core/src/input/keyboard_state.rs:13-22 | the six modifier entries equal the event's six flags, whatever the key; a non-modifier key's entry is "held" exactly for a key-down; every other entry is unchanged |
| KeyboardStates.ModifierFlagWins | src/tokterm_core/src/input/keyboard_state.rs:14-21 | for a modifier key the flag overwrite wins: a left-shift key-down whose flag says released leaves left shift released |
| KeyboardStates.UpdateIsIdempotent | src/tokterm_core/src/input/keyboard_state.rs:13-22 | applying the same event twice is the same as applying it once |
| Keys.ModifierNumbers | src/tokterm_core/src/input/keyboard_state.rs:16-21 | the six modifiers have distinct slots, numbered 1 to 6, and no other key is numbered in that range |
| MouseStates.New | src/tokterm_core/src/input/mouse_state.rs:16-27 | all seven buttons are released and the position is the origin |
| MouseStates.UpdateFromEvent | src/tokterm_core/src/input/mouse_state.rs:29-38 | the seven button flags and the position equal the event's |
| MouseStates.UpdateForgetsPriorState | src/tokterm_core/src/input/mouse_state.rs:29-38 | the result does not depend on the prior state: the update is idempotent, and of two updates the last one wins |
| MouseStates.UpdateIgnoresKindAndWheel | src/tokterm_core/src/input/mouse_state.rs:29-38 | the event's kind and wheel delta do not affect the state |
| WindowsColors.GetColorFromU16 | src/tokterm_windows/src/color.rs:5-27 | only the low four bits of the attribute word decide the colour |
| WindowsColors.GetU16FromColor | src/tokterm_windows/src/color.rs:29-48 | every code is at most 15, and decoding it gives the colour back |
| WindowsColors.CodeRoundTrip | src/tokterm_windows/src/color.rs:5-48 | encoding a decoded word gives its low nibble, so every nibble has its colour and the default arm of the decoder is unreachable |
| WindowsColors.GetU16FromColorInjective | src/tokterm_windows/src/color.rs:29-48 | distinct colours get distinct codes |
| UnixColors.New | src/tokterm_unix/src/color.rs:11-16 | the pair keeps the given foreground and background |
| UnixColors.FromCell | src/tokterm_unix/src/color.rs:18-23 | the pair of a cell is `new(cell.foreground, cell.background)` |
| UnixColors.ColorToI16 | src/tokterm_unix/src/color.rs:26-44 | every colour maps into 0..15 |
| UnixColors.CursesIsWindowsWithRedBlueSwapped | src/tokterm_unix/src/color.rs:26-44 | the curses number is the Windows attribute with its red and blue bits exchanged |
| UnixColors.ColorToI16Injective | src/tokterm_unix/src/color.rs:26-44 | distinct colours get distinct numbers, so the sixteen colours map one-to-one onto 0..15 |
| TermionColors.ColorToU8 | src/tokterm_termion/src/color.rs:3-21 | every colour maps into 0..15 |
| TermionColors.AgreesWithCurses | src/tokterm_termion/src/color.rs:3-21 | termion's index equals the curses number for every colour; Black, Grey, DarkGrey and White are 0, 7, 8 and 15 |
| TermionColors.ColorToU8Injective | src/tokterm_termion/src/color.rs:3-21 | distinct colours get distinct indices |
| WindowsInput.GetKey | src/tokterm_windows/src/application.rs:253-765 | the digit, letter, number-pad and F1–F24 blocks map in order, and a code names no key exactly when the table does not list it |
| WindowsInput.ModifierCodes | src/tokterm_windows/src/application.rs:621-637 | 0xA0 to 0xA5 name left shift, right shift, left control, right control, left menu and right menu, in that order |
| WindowsInput.NavigationCodes | src/tokterm_windows/src/application.rs:340-352 | 0x24 to 0x28 name home and the four arrows |
| WindowsInput.ClearHasTwoCodes | src/tokterm_windows/src/application.rs:253-765 | 0x0C and 0xFE both name Clear, so the table is not injective |
| WindowsInput.Signed16 | src/tokterm_windows/src/application.rs:242 | the signed reading of a 16-bit word agrees with the word modulo 2^16 |
| WindowsInput.Signed16IsUnique | src/tokterm_windows/src/application.rs:242 | the signed reading is the only value in the signed 16-bit range with that bit pattern |
| WindowsInput.WheelDeltaRoundTrip | src/tokterm_windows/src/application.rs:241-243 | whatever buttons are held, a delta stored in two's complement in the high word reads back as itself |
| WindowsInput.GetCharFromU16 | src/tokterm_windows/src/application.rs:246-251 | a code unit outside 0xD800..0xDFFF becomes the character with that code; a surrogate half becomes a space |
| WindowsInput.CharRoundTrip | src/tokterm_windows/src/application.rs:246-251 | every character of the basic multilingual plane survives the trip through its code unit |
| WindowsInput.MouseEventKind | src/tokterm_windows/src/application.rs:208-215 | flags 0 give Click, DOUBLE_CLICK gives DoubleClick, MOUSE_WHEELED gives HorizontalWheel and MOUSE_HWHEELED gives VerticalWheel, each exactly; everything else is a move |
| WindowsInput.ProcessMouseEvent | src/tokterm_windows/src/application.rs:204-229 | one button flag per button-state bit, with extra buttons 3 and 4 off; the wheel delta comes from the high word and the position from the record |
| WindowsInput.KeyEventWith | src/tokterm_windows/src/application.rs:191-199 | key, code and character come from the record; the control and alt flags are bit tests on the control-key state; the shift flags are the held bits of the two key-state words |
| WindowsInput.ProcessKeyEventAsWritten | src/tokterm_windows/src/application.rs:182-201 | as written, a record is a key-up exactly when its down flag is −1; every other field is as in `KeyEventWith` |
| WindowsInput.ReleaseReportedAsKeyDown | src/tokterm_windows/src/application.rs:186-190 | as written, both values a BOOL down flag takes (0 and 1) give a key-down, so no key-up is ever reported |
| WindowsInput.ProcessKeyEvent | src/tokterm_windows/src/application.rs:182-201 | corrected: a record is a key-up exactly when its down flag is 0; every other field is as in `KeyEventWith` |
| WindowsInput.PressAndReleaseDistinguished | src/tokterm_windows/src/application.rs:186-190 | the corrected mapping reports a press as key-down and a release as key-up, and agrees with the written one on every other field |
| NCursesInput.GetKeyAsWritten | src/tokterm_ncurses/src/application.rs:316-321 | as written, every code other than break, down and up names the left arrow, so no code names no key |
| NCursesInput.GetKeyAsWrittenMapsAllToLeft | src/tokterm_ncurses/src/application.rs:316-387 | as written, 'A', '0' and the error value all name the left arrow; the corrected table maps them to A, Key0 and no key |
| NCursesInput.GetKey | src/tokterm_ncurses/src/application.rs:316-387 | corrected: a code names no key exactly when the table does not list it; the left-arrow code names Left; F1–F15 map in order |
| NCursesInput.LettersDigitsAndTab | src/tokterm_ncurses/src/application.rs:348-384 | corrected: the upper- and lower-case codes of a letter name the same key, 48..57 name Key0..Key9, and 9 names Tab |
| NCursesInput.GetCharacter | src/tokterm_ncurses/src/application.rs:389-455 | the codes 48..57, 65..90 and 97..122 give the character with that code point; every other code gives a space |
| NCursesInput.ProcessKeyEvent | src/tokterm_ncurses/src/application.rs:127-146 | corrected: no event exactly when the code names no key; otherwise a key-down with that key and character, the key code equal to the code modulo 2^16, and every modifier off |
| NCursesInput.ProcessKeyEventAsWritten | src/tokterm_ncurses/src/application.rs:127-146 | with the as-written table, every code, the error value included, becomes a key-down event |
| NCursesInput.IdlePollReportsLeftArrow | src/tokterm_ncurses/src/application.rs:288-303 | with no key pending, the non-blocking read returns the error value; as written this queues a left-arrow key-down, and with the corrected table it queues nothing |
| NCursesInput.NewLatches | src/tokterm_ncurses/src/application.rs:88-92 | all latches start released, with the stored position at the origin |
| NCursesInput.Latch | src/tokterm_ncurses/src/application.rs:191-197 | a release bit clears the latch, a press bit without a release sets it, and with neither the latch keeps its value |
| NCursesInput.NextLatches | src/tokterm_ncurses/src/application.rs:191-224 | each latch follows its own button's press and release bits (button 3 drives the first extra button, button 4 the right button), and the stored position becomes the report's |
| NCursesInput.ProcessMouseEvent | src/tokterm_ncurses/src/application.rs:148-244 | an unreadable report gives the error message and unchanged latches; a readable one gives a mouse event and the next latches |
| NCursesInput.MouseEventFields | src/tokterm_ncurses/src/application.rs:155-243 | the kind is chosen by priority (click, then double or triple click, then wheel, then move); each button is its latch or one of its click bits; extra buttons 2–4 are off; the wheel step is −1 for wheel-up and +1 for wheel-down at an unmoved pointer |
| NCursesInput.LeftHeldUntilReleased | src/tokterm_ncurses/src/application.rs:191-228 | once the left latch is set, it stays set, and every report shows the left button held, until a report carries its release bit |
| TermionInput.CharKey | src/tokterm_termion/src/application.rs:194-360 | a letter in either case names its letter key and a digit its digit key; any other character names no key |
| TermionInput.GetKey | src/tokterm_termion/src/application.rs:166-366 | F1–F12 map in order and any other function number to no key; a plain non-alphanumeric character names no key; any other Alt or Ctrl combination names Menu or Control |
| TermionInput.LetterCaseAndModifierAgnostic | src/tokterm_termion/src/application.rs:194-349 | a letter in either case, plain or with Alt or Ctrl, names the same letter key |
| TermionInput.DigitModifierAgnostic | src/tokterm_termion/src/application.rs:351-360 | a digit, plain or with Alt or Ctrl, names its digit key |
| TermionInput.ProcessMouseEvent | src/tokterm_termion/src/application.rs:120-143 | always a move with extra buttons off; a button flag is set exactly by a press of that button; the position is the 1-based report minus one per axis; the wheel is +1 for wheel-up, −1 for wheel-down and 0 otherwise |
| TermionInput.ProcessKeyEvent | src/tokterm_termion/src/application.rs:145-164 | always a key-up with key code 0 and a space; left control is set exactly for Ctrl combinations and left menu exactly for Alt ones; the other four modifiers are off |
| BackendAgreement.CharacterNamesItsKey | src/tokterm_ncurses/src/application.rs:389-455 | corrected: for a letter or digit code, termion's table maps the character ncurses reports to the key the corrected ncurses table reads from that code |
| BackendAgreement.LettersAgree | src/tokterm_ncurses/src/application.rs:348-373 | corrected: a letter's ncurses codes, Windows virtual-key code and termion characters all name the same key |
| BackendAgreement.DigitsAgree | src/tokterm_ncurses/src/application.rs:374-383 | corrected: a digit names the same key in all three backends |
| BackendAgreement.FunctionKeysAgree | src/tokterm_termion/src/application.rs:181-192 | corrected: function keys 1 to 12 name the same key in all three backends |
| BackendAgreement.ArrowsAgree | src/tokterm_ncurses/src/application.rs:318-323 | corrected: the arrows and Home name the same key in all three backends |
| BackendAgreement.AsWrittenNCursesDisagrees | src/tokterm_ncurses/src/application.rs:316-323 | as written, ncurses reads the first ten letters and digits, F1–F10 and the right arrow as the left arrow, while Windows and termion read each as its own key |

## Left out

- `bezier_to` and `bezier_segment` (canvas.rs:104-269) are not modelled. They are floating-point numerics with a panicking assertion.
- The terminal, window and mouse implementations of the three backends are not modelled. Neither are their `create` and `listen_events` bodies, the screen writes with colour-pair interning, or the demo program. These are foreign calls and I/O.
- Values that come from foreign calls are parameters:
  - the `wgetch` code;
  - the `getmouse` report, as an optional record whose absence is the error path;
  - the two `GetKeyState` words of the Windows key mapping;
  - the Windows and termion event records.
- The Windows `process_window_event` is not modelled. It only reads the window's position and size through foreign calls.
- Machine integers are unbounded here. The source computes the ellipse terms such as `4*(1-a)*b*b` (canvas.rs:414), and the circle error term, in `i32`, and these overflow for large shapes. The model takes the exact values.
- Wrapping `usize` arithmetic is modelled as an optimised build on a 64-bit target runs it. Single points get exact values. An inclusive range whose lower bound wraps is dropped. A fill-tail range whose upper bound wraps runs up to 2^64 + y1 (see the description above). A debug build panics on the underflow instead. The model also assumes that no grid dimension reaches 2^63, so a wrapped value is never on the grid.
- Canvases.FillEllipse / EllipseRaster.FillEllipseCellsAsWritten: when a tail pass wraps its rows, the source loops nearly 2^64 times per pass, so in practice the call does not return. The model gives the cells those loops would paint and the `Ok` status they would end with. It says nothing about running time.
- Points are read as exact values in the backends. The Windows and ncurses backends also pass through `as usize` the record positions and the stored mouse position that they compare against.
- TermionInput.ProcessMouseEvent: requires 1-based coordinates of at least 1, because the source's `x - 1` on a `u16` would underflow at 0. termion never reports 0.
- The early return in `write_cell_buffer` on a missing source cell is not modelled. A valid source buffer always has the cell, so that return cannot be reached.
- `write_chars` over an arbitrary character iterator is modelled through `write_str`, with the string as the sequence of characters.
- `CellBuffer::iter` and the `Canvas` accessors are not modelled. They only expose fields.
- Key numbering is a choice made here, because `key.rs` is not part of this model. The modifiers are 1 to 6 and every key is below 175, which is all that `KeyboardState` relies on.

## Findings

| source | as written | input that shows it | evidently intended | confidence | as-written member | corrected member |
|---|---|---|---|---|---|---|
| src/tokterm_ncurses/src/application.rs:321 | `KEY_LEFT` is not among the imported curses constants (lines 27-32), so the arm binds a fresh variable and matches every code that reaches it. Every code other than break, down and up becomes the left arrow. | code 65 ('A'), or the error value −1 that the non-blocking `wgetch` (line 103) returns when no key is pending. Each gives a left-arrow key-down. | the full table, with unlisted codes naming no key and producing no event | high, not executed | NCursesInput.GetKeyAsWritten | NCursesInput.GetKey |
| src/tokterm_core/src/drawing/canvas.rs:537 | the fill's tail loop paints rows `uy0..=uy1`, but y0 ≥ y1 throughout. For a box at or below row 0 the range is empty unless the two are equal. Once y1 is above row 0 and y0 is not, `y1 as usize` wraps, and the range runs from y0 for nearly 2^64 rows | width 1, height 4 at (0, 0): the outline paints (0, 1), and the fill never does. Width 2, height 7 with the top row at −2: the fill paints row 6, below the box (`EllipseRaster.FillEllipseAsWrittenWrapsBelowBox`) | rows `y1..=y0` | high, not executed | EllipseRaster.FillEllipseAsWrittenMissesStroke | EllipseRaster.FillCoversStroke |
| src/tokterm_core/src/drawing/canvas.rs:452-466 | both tail loops use the exit columns `x0` and `x1`, which the main loop has already moved past each other, where the classic algorithm uses `x0 - 1` and `x1 + 1` | width 0, height 2 at (px, py): the outline paints (px − 1, py + 1), outside its box | columns `x0 - 1` and `x1 + 1` (the same change at lines 530-531) | medium, not executed | EllipseRaster.StrokeEllipseAsWrittenLeavesBox | EllipseRaster.StrokeEllipseSymmetricInBox |
| src/tokterm_windows/src/application.rs:186 | the key-up test compares `bKeyDown` with −1, but a Win32 BOOL holds 1 for a press and 0 for a release | a release record (bKeyDown = 0) is reported as a key-down | a key-up exactly when `bKeyDown` is 0 | high, not executed | WindowsInput.ReleaseReportedAsKeyDown | WindowsInput.PressAndReleaseDistinguished |
