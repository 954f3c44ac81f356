# Rotating heart: frame rasteriser and tick state

A Dafny model of the core of a small Go server that streams an ASCII-art
animation of a rotating 3D heart. Each frame is made by `renderFrame` in
`main.go`. It rotates every point of a fixed point cloud about the vertical
axis. It projects the point onto a 60 x 30 character grid, using Go's
truncating `int()` conversion. It clips the point to the grid. A z-buffer
with a strict greater-than test keeps, per cell, the point with the greatest depth value, and a glyph
(`@`, `*` or `.`) is chosen by depth band. Finally the grid is written out
row by row, each row ended by a newline. Between frames, the handler
advances the rotation angle by 0.2, wrapping it by one turn, and sometimes
advances the palette index.

Modules:

- `Projection` (`projection.dfy`): points, Go's truncation, rotation, projection, the clip.
- `Raster` (`raster.dfy`): the reference definition `Winner`. It gives, for each
  cell, the first point to reach the greatest depth among the points landing
  there. `CellDepth` and `CellGlyph` are derived from it. The `Canvas` class
  holds the two buffers, which are `array2`s updated in place. `RenderFrame`
  allocates a canvas, scans the points and serialises.
- `Stream` (`stream.dfy`): the per-connection state `Session` (angle and colour
  index), its tick update, and lemmas about runs of ticks.
- `Wrappers` (`wrappers.dfy`): `Option`. An empty depth cell is `None`. The source
  uses the sentinel `-math.MaxFloat64` for this.

Inputs the model takes instead of computing them:

- the point sequence;
- `cosA` and `sinA`, as reals;
- the value of `2*math.Pi`, as the parameter `twoPi`. It is assumed to exceed the step 0.2;
- the colour-advance condition `int(angle*10)%5 == 0`, as a boolean.

Three points where the code's behaviour is easy to misread:

- Screen coordinates are truncated toward zero, not floored. A column or row
  in (-1, 0) lands on cell 0 instead of being clipped (`ClipCondition`,
  `LeftEdgeLandsInColumnZero`).
- The depth test is strict. A later point at an equal depth does not take the
  cell, so the earlier point keeps it (`EqualDepthKeepsEarlier`).
- The wrap test is strict (`angle > 2π`), so the bound proved is the closed
  range [0, 2π]. A tick from 2π - 0.2 gives exactly 2π (`AngleMayEqualTwoPi`).
  Whether that angle is ever reached from the start angle 0 is not shown.

## Model

| member | source | states |
|---|---|---|
| `Projection.Trunc` | main.go:67-68 | Go's `int()` truncates toward zero: for v >= 0 the result n has n <= v < n+1; for v < 0 it has n-1 < v <= n |
| `Projection.RotX` | main.go:63 | definition, no contract: the rotated x, x·cosA - z·sinA |
| `Projection.RotZ` | main.go:64 | definition, no contract: the rotated depth, x·sinA + z·cosA |
| `Projection.Project` | main.go:63-68 | definition, no contract: the truncated column 30 + rotX, the truncated row 15 + y/2, and the depth rotZ |
| `Projection.InBounds` | main.go:70 | definition, no contract: the viewport clip, column in [0, 60) and row in [0, 30) |
| `Projection.Hits` | main.go:70 | definition, no contract: the point passes the clip and lands on the given cell |
| `Projection.ClipCondition` | main.go:67-70 | a projected point passes the clip exactly when -1 < 30 + rotX < 60 and -1 < 15 + y/2 < 30 |
| `Projection.LeftEdgeLandsInColumnZero` | main.go:67-70 | a rotated x in (-31, -29) is drawn in column 0, not clipped |
| `Projection.RotationKeepsRadius` | main.go:63-65 | with cos² + sin² = 1, the rotation keeps x² + z² |
| `Raster.Glyph` | main.go:73-79 | a glyph is always one of `@`, `*`, `.` |
| `Raster.Winner` | main.go:62-82 | the point holding a cell, when there is one, lands on that cell |
| `Raster.Beats` | main.go:71 | definition, no contract: the strict depth test, where an empty cell is beaten by every point |
| `Raster.CellDepth` | main.go:70-72 | definition, no contract: the depth-buffer value the scan leaves, the winner's depth or empty |
| `Raster.CellGlyph` | main.go:70-79 | definition, no contract: the character-buffer value the scan leaves, the winner's band glyph or a blank |
| `Raster.WinnerNoneIff` | main.go:70-72 | a cell has no winner exactly when no point lands on it |
| `Raster.WinnerIsFirstMax` | main.go:70-72 | the winner has the greatest depth of the cell's points, and every earlier point on the cell has a strictly smaller depth |
| `Raster.WinnerCharacterised` | main.go:62-82 | Winner is Some(k) exactly when k is the first point reaching the cell's maximum depth |
| `Raster.CellDepthIsMax` | main.go:51-72 | the final depth of a cell is the maximum depth over the in-bounds points projected to it, and empty exactly when none was |
| `Raster.CellBlankIff` | main.go:43-72 | a cell stays blank exactly when no in-bounds point was projected to it |
| `Raster.FilledCellBand` | main.go:73-79 | a filled cell shows `@` iff its depth > 5, `.` iff < -5, `*` iff in [-5, 5] |
| `Raster.ScanStep` | main.go:70-80 | one more point changes a cell only when it lands there and strictly beats the depth, and the cell then takes its depth and band glyph |
| `Raster.EqualDepthKeepsEarlier` | main.go:71 | a later point at exactly the cell's current depth leaves the winner unchanged |
| `Raster.Canvas.constructor` | main.go:43-57 | both buffers are 30 x 60, every glyph blank and every depth empty |
| `Raster.Canvas.Plot` | main.go:67-80 | an out-of-bounds point changes neither buffer; otherwise only cell (screenY, screenX) can change, and only on a strict depth win, when it gets the point's depth and band glyph |
| `Raster.Canvas.Serialize` | main.go:84-91 | the text has length 30 * 61; character r*61+c is the glyph of cell (r, c) and character r*61+60 is a newline |
| `Raster.RenderFrame` | main.go:42-92 | the frame is 30 lines of 60 characters, each ended by a newline, with `\n` at no other position; every character is in {' ', '*', '@', '.', '\n'}; each cell shows the reference scan's glyph |
| `Stream.NextAngle` | main.go:122-125 | the new angle is the old plus 0.2, minus at most one turn; it is within one turn exactly when the stepped angle is within two |
| `Stream.NextColor` | main.go:127-129 | the colour index stays in [0, 4); it steps to the next index, and from 3 back to 0, when the condition holds, and is unchanged otherwise |
| `Stream.AngleStaysInTurn` | main.go:122-125 | an angle in [0, 2π] stays in [0, 2π] after a tick |
| `Stream.AngleMayEqualTwoPi` | main.go:123-125 | the strict wrap test can leave the angle at exactly 2π |
| `Stream.WrapJustBelowTurn` | main.go:122-125 | from 2π - 0.1 a tick yields 0.1 |
| `Stream.AfterTicks` | main.go:111-129 | definition, no contract: the angle and colour index after one tick per entry of the run, in order |
| `Stream.TicksStayInRange` | main.go:106-129 | from the initial range, any number of ticks keeps the angle in [0, 2π] and the colour index in [0, 4) |
| `Stream.ColorCycles` | main.go:127-129 | four colour advances return to the starting colour |
| `Stream.Session.constructor` | main.go:106-107 | a connection starts at angle 0 with colour index 0 |
| `Stream.Session.Color` | main.go:117 | the colour a frame is painted with is a palette entry |
| `Stream.Session.Tick` | main.go:122-129 | a tick sets the angle and colour index to NextAngle and NextColor of the old ones and keeps the state valid |

## Left out

- HTTP plumbing is not modelled: the flusher check and its error response, the headers, writing, flushing, `ListenAndServe`. It is I/O over a library.
- The ticker, the `select` and cancellation on the request context are not modelled. They are timing and concurrency. `TicksStayInRange` covers any finite run of ticks instead.
- Point generation in `init` is not modelled. It uses `math.Sin`, `math.Cos` and `math.Pow`, and float-stepped loop counts. The point sequence is an arbitrary input.
- `math.Cos(angle)` and `math.Sin(angle)` are not computed. They are inputs, and so is the value of `2*math.Pi`.
- Stream.NextColor: the advance condition `int(angle*10)%5 == 0` is a boolean input. Only that the index stays in bounds and cycles is proved.
- The escape-sequence framing of each chunk (`fmt.Sprintf` with the clear-screen, colour and reset sequences) is not modelled. The palette itself is `Stream.Colors`.
- All arithmetic is on reals, not IEEE doubles: rounding, NaN and infinities are not modelled. Go's `int()` of a float outside the int range is also not modelled.
- Raster.Canvas.Plot: the sentinel is modelled as "empty", which every in-bounds point beats. In Go a point whose depth is exactly `-math.MaxFloat64`, minus infinity or NaN would not beat the sentinel.
- Buffer cells are one-character strings in the source and `char`s here. The `[][]string` rows are one `array2` per buffer.
