# Progressive Mandelbrot renderer

A Dafny model of the render engine of a React Mandelbrot viewer
(`ts-mandelbrot-app/src/components/MandelbrotComponent.tsx`).

For every frame size and view (centre and scale), the component starts a
render. The render fills an RGBA byte buffer of `width * height * 4` bytes, one
chunk of rows per step. A chunk is `max(1, floor(height / 10))` rows.

Each step does four things:
- it renders its rows, running the escape-time loop and the colour rule for every pixel;
- it copies those rows into a fresh chunk buffer for display;
- it reports the progress `round(endRow / height * 100)`;
- it asks for another step while rows remain.

Every change of view or size cancels the render in flight. After that, a step
of the old render does nothing. Left click zooms in on the clicked point,
right click zooms out there, and Escape resets the view.

Modules, one per part of the engine:

- `Viewport` (viewport.dfy) covers the view, the pixel-to-plane mapping, its
  inverse, and the zoom gestures. The mapping divides both axes by the frame
  width, so pixels are square.
- `Iteration` (iteration.dfy) covers the escape loop `z := z*z + c` from
  `z = 0`. It has a reference definition by recursion (`EscapeFrom`) and the
  loop itself (`EscapeCount`).
- `Palette` (colour.dfy) covers the colour rule. The intensity is
  `t = clamp(iter / 255)`, normalised against the constant 255 rather than the
  iteration cap, so every count from 255 on is drawn black.
- `Schedule` (schedule.dfy) covers the chunk size, where the next step
  starts, the progress percentage, and `Ranges`, which is the sequence of row
  ranges of a whole render.
- `Raster` (raster.dfy) covers the buffer layout and the copy of one row from
  one buffer to another.
- `Render` (render.dfy) holds the `Renderer` class. It stores the render
  state (`currentRow`, `cancelled`, `progress`, `rendering`) and the frame
  buffer `data: array<byte>`. Its `Step` method is one call of the chunk
  function. The ghost field `emitted` records the row ranges emitted so far.
  The ghost `image` holds the colour of every pixel of the frame.
- `App` (app.dfy) holds the `Component` class. It stores the frame size, the
  view and the live renderer, and has the input handlers. Each handler that
  changes the view or the size cancels the live render and launches a new one.

Approximations the model makes:
- Coordinates, the recurrence and the colour polynomials are exact reals.
- The float `Math.round` is replaced by the integer formula
  `(200 * endRow + height) / (2 * height)`, which rounds halves up, as
  `Math.round` does on non-negative values.
- The iteration cap is the renderer's field `maxIter`, which is set to 1000
  (`MaxIter`).

## Model

| member | source | states |
|---|---|---|
| Viewport.PlaneX | ts-mandelbrot-app/src/components/MandelbrotComponent.tsx:63 | centerX + (px - width/2) * (scale*2) / width, the abscissa drawn at column px, also the centre computed by both click handlers; no contract of its own: bijection in ColumnRoundTrip, equal column spacing in SquarePixels, used by ZoomIn and ZoomOut |
| Viewport.PlaneY | ts-mandelbrot-app/src/components/MandelbrotComponent.tsx:64 | centerY + (py - height/2) * (scale*2) / width, the ordinate drawn at row py, divided by the width as in the source; no contract of its own: bijection in RowRoundTrip, row spacing equal to column spacing in SquarePixels |
| Viewport.ColumnRoundTrip | ts-mandelbrot-app/src/components/MandelbrotComponent.tsx:63 | the column-to-abscissa mapping is a bijection: PixelX undoes PlaneX and PlaneX undoes PixelX, for every view with non-zero scale |
| Viewport.RowRoundTrip | ts-mandelbrot-app/src/components/MandelbrotComponent.tsx:64 | the row-to-ordinate mapping is a bijection: PixelY undoes PlaneY and PlaneY undoes PixelY |
| Viewport.SquarePixels | ts-mandelbrot-app/src/components/MandelbrotComponent.tsx:63-64 | adjacent columns and adjacent rows are the same plane distance 2*scale/width apart, whatever the height (both axes divide by the width) |
| Viewport.ZoomIn | ts-mandelbrot-app/src/components/MandelbrotComponent.tsx:138-144 | a left click keeps the scale positive and makes it strictly smaller |
| Viewport.ZoomOut | ts-mandelbrot-app/src/components/MandelbrotComponent.tsx:154-159 | a right click keeps the scale positive and makes it strictly larger |
| Viewport.ZoomCentresClickedPoint | ts-mandelbrot-app/src/components/MandelbrotComponent.tsx:138-144 | after either zoom the clicked plane point is drawn at the centre pixel of the frame |
| Viewport.ZoomMagnification | ts-mandelbrot-app/src/components/MandelbrotComponent.tsx:143-144 | zooming in halves, and zooming out doubles, the plane offset of every pixel from the centre |
| Viewport.ZoomOutUndoesZoomIn | ts-mandelbrot-app/src/components/MandelbrotComponent.tsx:154-159 | a right click at the frame centre undoes a left click there, and the other way round |
| Iteration.Next | ts-mandelbrot-app/src/components/MandelbrotComponent.tsx:69-71 | one turn of the loop body: real part zx*zx - zy*zy + cx and imaginary part 2*zx*zy + cy, both from the old z; no contract of its own: EscapeCount proves the loop that applies it equal to EscapeTime, OriginOrbitIsFixed and FarPointEscapesAtOnce give its value at c = 0 and for c of modulus at least 2 |
| Iteration.EscapeFrom | ts-mandelbrot-app/src/components/MandelbrotComponent.tsx:68-73 | the loop from state (z, iter) terminates with a count between iter and maxIter |
| Iteration.EscapeTime | ts-mandelbrot-app/src/components/MandelbrotComponent.tsx:66-73 | the iteration count of a point never exceeds the cap |
| Iteration.EscapeFromOrbit | ts-mandelbrot-app/src/components/MandelbrotComponent.tsx:68-73 | from the i-th orbit point the loop stops at the first later index whose point has squared modulus at least 4, or at the cap |
| Iteration.EscapeTimeIsFirstEscape | ts-mandelbrot-app/src/components/MandelbrotComponent.tsx:66-73 | the count is the first orbit index with squared modulus at least 4, capped at maxIter: all earlier orbit points are inside the circle of radius 2 |
| Iteration.OriginOrbitIsFixed | ts-mandelbrot-app/src/components/MandelbrotComponent.tsx:69-71 | for c = 0 every orbit point is 0 |
| Iteration.OriginNeverEscapes | ts-mandelbrot-app/src/components/MandelbrotComponent.tsx:68-73 | the point 0 reaches the cap, for every cap |
| Iteration.FarPointEscapesAtOnce | ts-mandelbrot-app/src/components/MandelbrotComponent.tsx:68-72 | a point with squared modulus at least 4 stops after exactly one iteration (for a cap of at least 1) |
| Iteration.EscapeTimeAtThreeThree | ts-mandelbrot-app/src/components/MandelbrotComponent.tsx:44 | with the cap of 1000, the point 3 + 3i has count 1 |
| Iteration.EscapeCount | ts-mandelbrot-app/src/components/MandelbrotComponent.tsx:65-73 | the while loop returns exactly the reference count EscapeTime |
| Palette.Clamp01 | ts-mandelbrot-app/src/components/MandelbrotComponent.tsx:79 | the clamp lands in [0, 1] and is the identity there |
| Palette.Intensity | ts-mandelbrot-app/src/components/MandelbrotComponent.tsx:79 | t lies in [0, 1]; t = 0 for zero iterations and t = 1 from 255 iterations on |
| Palette.CubicBound | ts-mandelbrot-app/src/components/MandelbrotComponent.tsx:80 | (1 - t) t^3 lies in [0, 27/256] on [0, 1] |
| Palette.QuarticBound | ts-mandelbrot-app/src/components/MandelbrotComponent.tsx:81 | (1 - t)^2 t^2 lies in [0, 1/16] on [0, 1] |
| Palette.ChannelsInByteRange | ts-mandelbrot-app/src/components/MandelbrotComponent.tsx:80-82 | each of the three polynomials, floored, lies in 0..255 for t in [0, 1] |
| Palette.Red | ts-mandelbrot-app/src/components/MandelbrotComponent.tsx:80 | floor(9 (1-t) t^3 * 255); no contract of its own: within 0..255 on [0, 1] by CubicBound and ChannelsInByteRange |
| Palette.Green | ts-mandelbrot-app/src/components/MandelbrotComponent.tsx:81 | floor(15 (1-t)^2 t^2 * 255); no contract of its own: within 0..255 on [0, 1] by QuarticBound and ChannelsInByteRange |
| Palette.Blue | ts-mandelbrot-app/src/components/MandelbrotComponent.tsx:82 | floor(8.5 (1-t)^3 t * 255); no contract of its own: within 0..255 on [0, 1] by CubicBound at 1 - t and ChannelsInByteRange |
| Palette.Colour | ts-mandelbrot-app/src/components/MandelbrotComponent.tsx:75-83 | every colour has its channels in 0..255, so storing it in the byte buffer loses nothing |
| Palette.BlackBoundaries | ts-mandelbrot-app/src/components/MandelbrotComponent.tsx:76-82 | the colour is black when the count is the cap, when it is 0, and when it is 255 or more |
| Schedule.ChunkSize | ts-mandelbrot-app/src/components/MandelbrotComponent.tsx:53 | a chunk is at least one row and, on a non-empty frame, at most the frame height |
| Schedule.ChunkSizeIsTenth | ts-mandelbrot-app/src/components/MandelbrotComponent.tsx:53 | frames of fewer than 20 rows get one-row chunks; from 10 rows on a chunk is the tenth of the height rounded down |
| Schedule.NextRow | ts-mandelbrot-app/src/components/MandelbrotComponent.tsx:59 | a step strictly advances the row, never past the height, by at most a chunk, and by exactly a chunk unless it reaches the end |
| Schedule.Progress | ts-mandelbrot-app/src/components/MandelbrotComponent.tsx:95 | the percentage reported after a step, (200*endRow + height) / (2*height) on integers; no contract of its own: rounding to nearest in ProgressRounds, 0 at the start in ProgressStart, monotone in ProgressMonotone and ProgressAdvances, 100 at the end in ProgressFull |
| Schedule.ProgressRounds | ts-mandelbrot-app/src/components/MandelbrotComponent.tsx:95 | the progress p is 100*endRow/height rounded to nearest with halves up, (2p-1)h <= 200e < (2p+1)h, and at most 100 while endRow <= height |
| Schedule.ProgressMonotone | ts-mandelbrot-app/src/components/MandelbrotComponent.tsx:95 | a later end row never reports less progress |
| Schedule.ProgressStart | ts-mandelbrot-app/src/components/MandelbrotComponent.tsx:47 | the progress of zero rendered rows is 0, the value reset at the start of a render |
| Schedule.ProgressAdvances | ts-mandelbrot-app/src/components/MandelbrotComponent.tsx:95 | advancing the end row within the frame keeps progress non-decreasing and at most 100 |
| Schedule.ProgressFull | ts-mandelbrot-app/src/components/MandelbrotComponent.tsx:95 | the last step reports exactly 100 |
| Schedule.Ranges | ts-mandelbrot-app/src/components/MandelbrotComponent.tsx:54-59 | the row ranges the remaining steps render, from the current row: [row, min(row + chunk, height)) followed by the ranges from there, empty at the height; no contract of its own: shape in RangesShape, order in RangesAscending, coverage in RangesPartition, length in RangesCount, and Step keeps the emitted ranges a prefix of it |
| Schedule.ScheduleAdvances | ts-mandelbrot-app/src/components/MandelbrotComponent.tsx:116 | a step moves the first remaining range from the ranges still to do to the ranges done |
| Schedule.RangesShape | ts-mandelbrot-app/src/components/MandelbrotComponent.tsx:59 | the ranges of a render are non-empty, at most a chunk long, start at the current row, are contiguous and end at the height |
| Schedule.RangesAscending | ts-mandelbrot-app/src/components/MandelbrotComponent.tsx:116 | the ranges are ascending and pairwise disjoint |
| Schedule.RangesPartition | ts-mandelbrot-app/src/components/MandelbrotComponent.tsx:61 | a row lies in some range if and only if it is in [row, height), and then in exactly one |
| Schedule.RangesCount | ts-mandelbrot-app/src/components/MandelbrotComponent.tsx:118-123 | a render takes ceil((height - row) / chunkSize) steps: (n-1)*c < height - row <= n*c |
| Schedule.ProgressAlongRanges | ts-mandelbrot-app/src/components/MandelbrotComponent.tsx:95 | along a complete render the reported progress is non-decreasing, within 0..100, and exactly 100 on the last step |
| Raster.RowStartIsProduct | ts-mandelbrot-app/src/components/MandelbrotComponent.tsx:86 | row y starts at byte y * width * 4 |
| Raster.Index | ts-mandelbrot-app/src/components/MandelbrotComponent.tsx:86-90 | each byte of pixel (x, y) lies within row y, and so within the buffer |
| Raster.IndexIsOffset | ts-mandelbrot-app/src/components/MandelbrotComponent.tsx:86 | the byte offset is (y*width + x)*4 + k, and the alpha byte of every pixel is below width*height*4 |
| Raster.PixelByte | ts-mandelbrot-app/src/components/MandelbrotComponent.tsx:87-90 | byte k of a written pixel: red, green, blue, then 255; no contract of its own: the opaque alpha is AlphaIsOpaque, and RenderRow writes exactly these bytes |
| Raster.CopyRow | ts-mandelbrot-app/src/components/MandelbrotComponent.tsx:103-110 | the four bytes of every pixel of a row are copied to the destination row, and no other destination byte changes |
| Render.PixelColour | ts-mandelbrot-app/src/components/MandelbrotComponent.tsx:63-83 | every pixel colour has its channels in 0..255 |
| Render.AlphaIsOpaque | ts-mandelbrot-app/src/components/MandelbrotComponent.tsx:90 | the alpha byte of every pixel is 255 |
| Render.InitialCentreIsBlack | ts-mandelbrot-app/src/components/MandelbrotComponent.tsx:3-4 | in the initial view the centre pixel of a frame of even size shows the point 0 and is black |
| Render.Renderer.constructor | ts-mandelbrot-app/src/components/MandelbrotComponent.tsx:44-54 | a new render has row 0, progress 0, the progress bar shown, a blank buffer of width*height*4 bytes, no range emitted, and is not cancelled |
| Render.Renderer.Cancel | ts-mandelbrot-app/src/components/MandelbrotComponent.tsx:128 | the cleanup sets the cancelled flag and keeps the render's invariant |
| Render.Renderer.ShadePixel | ts-mandelbrot-app/src/components/MandelbrotComponent.tsx:63-83 | the mapping, the escape loop and the colour rule give the colour of the pixel in the frame |
| Render.Renderer.RenderRow | ts-mandelbrot-app/src/components/MandelbrotComponent.tsx:62-91 | every byte of row y gets the pixel's colour and 255 alpha, and no other byte changes |
| Render.Renderer.RenderRows | ts-mandelbrot-app/src/components/MandelbrotComponent.tsx:61-92 | rows [start, endRow) get their colours, the rendered prefix grows to endRow, the buffer stays blank after it, and no byte outside the rows changes |
| Render.Renderer.CopyChunk | ts-mandelbrot-app/src/components/MandelbrotComponent.tsx:98-111 | the chunk buffer is fresh and chunkSize rows long; each byte of its first min(chunkSize, height - start) rows equals the corresponding byte of rows start.. of the buffer, and the rest is blank |
| Render.Renderer.CopyShowsFrame | ts-mandelbrot-app/src/components/MandelbrotComponent.tsx:98-111 | a copy of rendered rows shows the colours of those rows of the frame |
| Render.Renderer.Step | ts-mandelbrot-app/src/components/MandelbrotComponent.tsx:56-124 | once cancelled, a step emits nothing and changes nothing. Otherwise it advances to min(row + chunk, height), emits that range and its copy, reports non-decreasing progress within 0..100, asks for another step exactly while rows remain, and changes only the bytes of its rows. It keeps the invariant that the ranges emitted so far are a prefix of the schedule, the rows before the current one hold their final colours, and the rest is blank |
| Render.Renderer.Start | ts-mandelbrot-app/src/components/MandelbrotComponent.tsx:126 | the first step of a fresh render is never skipped: it advances to the first range of the schedule, emits that range with a copy holding the colours of its rows, reports the render's progress, and asks for another step exactly while rows remain |
| Render.StepsAfterCancel | ts-mandelbrot-app/src/components/MandelbrotComponent.tsx:57 | once cancelled, any number of further steps are all skipped and leave the render and its buffer unchanged |
| Render.Launch | ts-mandelbrot-app/src/components/MandelbrotComponent.tsx:41-126 | setting up a render and running its first step gives a valid, uncancelled render of the given view and size that has emitted exactly the first range, and returns that step's outcome: the range, a fresh copy holding the colours of its rows, the progress, and whether another step follows |
| Render.RenderFrame | ts-mandelbrot-app/src/components/MandelbrotComponent.tsx:116-126 | a host that calls the step again whenever the outcome asks for it stops after exactly as many steps as the schedule has ranges, ceil(height / chunkSize); the render has then emitted the whole schedule, reports 100, hides the bar, and its buffer holds the colour of every pixel |
| Render.CompletedRender | ts-mandelbrot-app/src/components/MandelbrotComponent.tsx:116-123 | when the last row is done the emitted ranges are exactly the schedule, the progress is 100, the bar is hidden, and the buffer holds the colour of every pixel of the frame |
| App.Component.constructor | ts-mandelbrot-app/src/components/MandelbrotComponent.tsx:8-10 | on mount the view is the initial one and a render of it has made its first step, whose outcome (the first range, its copy and progress) is kept |
| App.Component.Restart | ts-mandelbrot-app/src/components/MandelbrotComponent.tsx:128-129 | the render in flight is cancelled, and a fresh render of the current view and size has made its first step, whose outcome (the first range, its copy and progress) is kept |
| App.Component.Click | ts-mandelbrot-app/src/components/MandelbrotComponent.tsx:132-146 | button 0 zooms in at the click and restarts; any other button changes nothing |
| App.Component.ContextMenu | ts-mandelbrot-app/src/components/MandelbrotComponent.tsx:148-160 | a right click zooms out at the click and restarts |
| App.Component.KeyDown | ts-mandelbrot-app/src/components/MandelbrotComponent.tsx:24-28 | Escape resets to the initial view and restarts if the view changed; any other key changes nothing |
| App.Component.Resize | ts-mandelbrot-app/src/components/MandelbrotComponent.tsx:16-18 | a resize keeps the view, takes the new size and restarts |
| App.Restarts | ts-mandelbrot-app/src/components/MandelbrotComponent.tsx:129 | which gestures change the view or the size and so re-run the render; no contract of its own: Handle and SupersededRenderIsSilent prove it is exactly when the handlers replace the live render |
| App.Component.Handle | ts-mandelbrot-app/src/components/MandelbrotComponent.tsx:15-32 | a gesture goes to its handler; the live render is replaced by a freshly started one exactly when Restarts holds, and otherwise the view, the render and its kept outcome are unchanged |
| App.SupersededRenderIsSilent | ts-mandelbrot-app/src/components/MandelbrotComponent.tsx:128-129 | for every gesture (left click, right click, key, resize): the live render is replaced exactly when Restarts holds, and then the old render is cancelled and every one of its later steps is skipped and leaves its row, emitted ranges, progress, bar and every buffer byte as they were |

## Left out

- React state, effects and their dependency re-runs are replaced by
  `Component`'s handlers, which call `Restart` directly. The unmount cleanup
  and the removal of listeners are not modelled.
- DOM and canvas calls are left out: `getContext`, the null checks of the canvas
  and context (lines 36-39), `createImageData`, `putImageData` and
  `getBoundingClientRect`. A chunk copy is not drawn: the first one is kept in
  `Component.shown`, and each later one is returned to the host in `Step`'s outcome.
- `requestAnimationFrame` is left out: its timing and asynchrony are up to the
  host. The model has the caller call `Step` again whenever the outcome asks
  for it.
- Frames of width or height 0 are excluded. `createImageData` refuses them, so
  the source never renders one.
- Render.Renderer.Step: it requires `currentRow < height`. The source only calls the chunk
  function in that state (line 126 with row 0, and line 120 guarded by line 118).
- Iteration.EscapeCount: the float arithmetic of lines 63-64 and 69-71 is modelled
  on exact reals, so the model says nothing about IEEE rounding. The loop carries z as one
  point, and `Next` computes both parts from the old z, as the temporary of line 69 does.
- Palette.Colour: the polynomials of lines 80-82 are computed on exact reals
  before the floor, not in floating point.
- Schedule.Progress: the float `Math.round((endRow / height) * 100)` is
  replaced by exact integer rounding.
- App.Component.KeyDown: React skips a re-render when the new state is the
  same object. The source's reset passes the constant centre object, so a
  centre of (0, 0) reached by zooming is a different object, and the source
  would re-render for it. The model restarts exactly when the view value changes.
- App.Restarts: the same simplification for Escape: it holds exactly when the view
  value differs from the initial one, not when the centre object differs.
- App.Component.Resize: the window size is a parameter, whereas the source
  reads it from the window. The model restarts on every resize, as the source
  does, because it always stores a new size object.
- The progress bar markup (lines 162-191) is left out. Its visibility is the
  `rendering` field and its width is the `progress` field.
