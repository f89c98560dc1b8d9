/** The progressive, cancellable renderer of one frame: each step renders the
    next chunk of rows into the frame buffer, copies them into a fresh chunk
    buffer for display, reports progress and says whether another step is due. */
module Render {
  import opened Viewport
  import opened Iteration
  import opened Palette
  import opened Schedule
  import opened Raster

  /** Iteration cap of the escape loop. */
  const MaxIter: nat := 1000

  /** Colour of pixel (x, y) of a width x height frame of view v. */
  function PixelColour(v: View, width: nat, height: nat, maxIter: nat, x: nat, y: nat): (c: Rgb)
    requires width > 0
    ensures InByteRange(c)
  {
    Colour(EscapeTime(PlaneX(v, x as real, width), PlaneY(v, y as real, width, height), maxIter), maxIter)
  }

  /** Byte k of pixel (x, y) of the finished frame. */
  function FrameByte(v: View, width: nat, height: nat, maxIter: nat, x: nat, y: nat, k: nat): byte
    requires width > 0 && k < 4
  {
    PixelByte(PixelColour(v, width, height, maxIter, x, y), k)
  }

  /** What one step produced: nothing once cancelled, otherwise the rows it
      rendered, their copy, the progress it reported and whether it asked for
      another step. */
  datatype StepOutcome =
    | Skipped
    | Emitted(span: Span, pixels: array<byte>, progress: nat, scheduleNext: bool)

  class Renderer {
    const view: View
    const width: nat
    const height: nat
    const chunkSize: nat
    /** Iteration cap of the escape loop. */
    const maxIter: nat
    /** The frame buffer, four bytes per pixel. */
    const data: array<byte>
    /** First row not yet rendered. */
    var currentRow: nat
    /** Set by the cleanup of the render; checked at the start of every step. */
    var cancelled: bool
    /** Last progress percentage reported. */
    var progress: nat
    /** Whether the progress bar is shown. */
    var rendering: bool
    /** Row ranges of the steps done so far. */
    ghost var emitted: seq<Span>
    /** The colours of the finished frame, image[y][x] for pixel (x, y). */
    ghost const image: seq<seq<Rgb>>

    /** `image` is the frame of `view`: every entry is the colour of its pixel. */
    ghost predicate ImageIsFrame()
    {
      width >= 1 &&
      |image| == height && (forall y :: 0 <= y < height ==> |image[y]| == width) &&
      (forall y, x :: 0 <= y < height && 0 <= x < width ==> InByteRange(image[y][x])) &&
      (forall y, x {:trigger PixelColour(view, width, height, maxIter, x, y)} :: 0 <= y < height && 0 <= x < width ==>
         image[y][x] == PixelColour(view, width, height, maxIter, x, y))
    }

    /** The steps done so far are the first steps of the schedule; the rows
        before currentRow hold their final colours and the rest of the buffer
        is still blank. */
    ghost predicate Valid()
      reads this, data
    {
      ImageIsFrame() && height >= 1 &&
      chunkSize == ChunkSize(height) &&
      data.Length == RowStart(width, height) &&
      currentRow <= height &&
      emitted + Ranges(currentRow, chunkSize, height) == Ranges(0, chunkSize, height) &&
      progress == Progress(currentRow, height) &&
      rendering == (currentRow < height) &&
      RowsRendered(currentRow) && BlankFrom(currentRow)
    }

    /** Rows [0, n) of the buffer hold their final colours. */
    ghost predicate RowsRendered(n: nat)
      requires ImageIsFrame() && data.Length == RowStart(width, height) && n <= height
      reads data
    {
      forall y, x, k :: 0 <= y < n && 0 <= x < width && 0 <= k < 4 ==>
        data[Index(width, height, x, y, k)] == PixelByte(image[y][x], k)
    }

    /** The buffer is blank from row n on. */
    ghost predicate BlankFrom(n: nat)
      reads data
    {
      forall i :: RowStart(width, n) <= i < data.Length ==> data[i] == 0
    }

    /** `chunk` is the display buffer of rows [start, endRow): chunkSize rows,
        the first endRow - start of them holding the colours of those rows of
        the frame and the rest blank. */
    ghost predicate ChunkHolds(chunk: array<byte>, start: nat, endRow: nat)
      requires ImageIsFrame() && start <= endRow <= height && endRow - start <= chunkSize
      reads chunk
    {
      chunk.Length == RowStart(width, chunkSize) &&
      (forall y, x, k :: 0 <= y < endRow - start && 0 <= x < width && 0 <= k < 4 ==>
         chunk[Index(width, chunkSize, x, y, k)] == PixelByte(image[start + y][x], k)) &&
      (forall i :: RowStart(width, endRow - start) <= i < chunk.Length ==> chunk[i] == 0)
    }

    /** Start a render of view v on a width x height frame. */
    constructor (v: View, width: nat, height: nat)
      requires width >= 1 && height >= 1
      ensures Valid() && fresh(data)
      ensures this.view == v && this.width == width && this.height == height && maxIter == MaxIter
      ensures currentRow == 0 && !cancelled && progress == 0 && rendering && emitted == []
    {
      this.view := v;
      this.width := width;
      this.height := height;
      chunkSize := ChunkSize(height);
      maxIter := MaxIter;
      data := new byte[RowStart(width, height)](_ => 0);
      currentRow := 0;
      cancelled := false;
      progress := 0;
      rendering := true;
      emitted := [];
      image := seq(height, y requires 0 <= y < height => seq(width, x requires 0 <= x < width => PixelColour(v, width, height, MaxIter, x, y)));
      new;
      ProgressStart(height);
    }

    /** The cleanup of the render. */
    method Cancel()
      requires Valid()
      modifies this`cancelled
      ensures Valid() && cancelled
    {
      cancelled := true;
    }

    /** Map pixel (x, y) to the plane, run the escape loop and colour the result. */
    method ShadePixel(x: nat, y: nat) returns (c: Rgb)
      requires ImageIsFrame() && x < width && y < height
      ensures c == image[y][x]
    {
      var cx := PlaneX(view, x as real, width);
      var cy := PlaneY(view, y as real, width, height);
      var iter := EscapeCount(cx, cy, maxIter);
      c := Colour(iter, maxIter);
      assert c == PixelColour(view, width, height, maxIter, x, y);
    }

    /** Render row y of the frame into the buffer; no other row changes. */
    method RenderRow(y: nat)
      requires ImageIsFrame() && data.Length == RowStart(width, height) && y < height
      modifies data
      ensures forall x, k :: 0 <= x < width && 0 <= k < 4 ==>
        data[Index(width, height, x, y, k)] == PixelByte(image[y][x], k)
      ensures forall i :: 0 <= i < data.Length && !(RowStart(width, y) <= i < RowStart(width, y + 1)) ==>
        data[i] == old(data[i])
    {
      RowStartSucc(width, y);
      var x := 0;
      while x < width
        invariant x <= width
        invariant forall x', k :: 0 <= x' < x && 0 <= k < 4 ==>
          data[Index(width, height, x', y, k)] == PixelByte(image[y][x'], k)
        invariant forall i :: 0 <= i < data.Length && !(RowStart(width, y) <= i < RowStart(width, y) + 4 * x) ==>
          data[i] == old(data[i])
      {
        var c := ShadePixel(x, y);
        var pixelIndex := Index(width, height, x, y, 0);
        assert Index(width, height, x, y, 3) == pixelIndex + 3;
        data[pixelIndex] := PixelByte(c, 0);
        data[pixelIndex + 1] := PixelByte(c, 1);
        data[pixelIndex + 2] := PixelByte(c, 2);
        data[pixelIndex + 3] := PixelByte(c, 3);
        x := x + 1;
      }
    }

    /** Copy the rows from `start` on, at most chunkSize of them and none past
        the frame, into a fresh, blank buffer of chunkSize rows. */
    method CopyChunk(start: nat) returns (chunk: array<byte>)
      requires data.Length == RowStart(width, height) && start < height && chunkSize >= 1
      ensures fresh(chunk) && chunk.Length == RowStart(width, chunkSize)
      ensures var rows := NextRow(start, chunkSize, height) - start;
        (forall y, x, k :: 0 <= y < rows && 0 <= x < width && 0 <= k < 4 ==>
           chunk[Index(width, chunkSize, x, y, k)] == data[Index(width, height, x, start + y, k)]) &&
        (forall i :: RowStart(width, rows) <= i < chunk.Length ==> chunk[i] == 0)
    {
      chunk := new byte[RowStart(width, chunkSize)](_ => 0);
      var y := 0;
      while y < chunkSize && start + y < height
        invariant start + y <= NextRow(start, chunkSize, height)
        invariant forall y', x, k :: 0 <= y' < y && 0 <= x < width && 0 <= k < 4 ==>
          chunk[Index(width, chunkSize, x, y', k)] == data[Index(width, height, x, start + y', k)]
        invariant forall i :: RowStart(width, y) <= i < chunk.Length ==> chunk[i] == 0
      {
        CopyRow(data, height, start + y, chunk, chunkSize, y, width);
        forall y', x, k | 0 <= y' < y && 0 <= x < width && 0 <= k < 4
          ensures chunk[Index(width, chunkSize, x, y', k)] == data[Index(width, height, x, start + y', k)]
        {
          RowStartMonotone(width, y' + 1, y);
        }
        RowStartSucc(width, y);
        y := y + 1;
      }
    }

    /** A copy of rendered rows of the buffer shows those rows of the frame. */
    lemma CopyShowsFrame(chunk: array<byte>, start: nat)
      requires ImageIsFrame() && data.Length == RowStart(width, height) && start < height && chunkSize >= 1
      requires RowsRendered(NextRow(start, chunkSize, height))
      requires chunk.Length == RowStart(width, chunkSize)
      requires var rows := NextRow(start, chunkSize, height) - start;
        (forall y, x, k :: 0 <= y < rows && 0 <= x < width && 0 <= k < 4 ==>
           chunk[Index(width, chunkSize, x, y, k)] == data[Index(width, height, x, start + y, k)]) &&
        (forall i :: RowStart(width, rows) <= i < chunk.Length ==> chunk[i] == 0)
      ensures ChunkHolds(chunk, start, NextRow(start, chunkSize, height))
    {
    }

    /** Render rows [start, endRow) into the buffer, which holds rows [0, start)
        and is blank from row start on; no other row changes. */
    method RenderRows(start: nat, endRow: nat)
      requires ImageIsFrame() && data.Length == RowStart(width, height) && start <= endRow <= height
      requires RowsRendered(start) && BlankFrom(start)
      modifies data
      ensures RowsRendered(endRow) && BlankFrom(endRow)
      ensures forall i :: 0 <= i < data.Length && !(RowStart(width, start) <= i < RowStart(width, endRow)) ==>
        data[i] == old(data[i])
    {
      var y := start;
      while y < endRow
        invariant start <= y <= endRow
        invariant RowsRendered(y)
        invariant forall i :: 0 <= i < data.Length && !(RowStart(width, start) <= i < RowStart(width, y)) ==>
          data[i] == old(data[i])
      {
        RenderRow(y);
        RowStartMonotone(width, start, y);
        forall y', x, k | 0 <= y' < y && 0 <= x < width && 0 <= k < 4
          ensures data[Index(width, height, x, y', k)] == PixelByte(image[y'][x], k)
        {
          RowStartMonotone(width, y' + 1, y);
        }
        RowStartSucc(width, y);
        y := y + 1;
      }
      RowStartMonotone(width, start, endRow);
    }

    /** One scheduled step of the render. */
    method Step() returns (out: StepOutcome)
      requires Valid() && currentRow < height
      modifies this`currentRow, this`progress, this`rendering, this`emitted, data
      ensures Valid() && old(progress) <= progress <= 100
      ensures old(cancelled) ==>
        out == Skipped && unchanged(this) && unchanged(data)
      ensures !old(cancelled) ==>
        currentRow == NextRow(old(currentRow), chunkSize, height) &&
        emitted == old(emitted) + [Span(old(currentRow), currentRow)] &&
        out.Emitted? && out.span == Span(old(currentRow), currentRow) &&
        out.progress == progress && out.scheduleNext == (currentRow < height) &&
        fresh(out.pixels) && ChunkHolds(out.pixels, old(currentRow), currentRow) &&
        (forall i :: 0 <= i < data.Length && !(RowStart(width, old(currentRow)) <= i < RowStart(width, currentRow)) ==>
           data[i] == old(data[i]))
    {
      if cancelled {
        ProgressAdvances(currentRow, currentRow, height);
        return Skipped;
      }
      var start := currentRow;
      var endRow := NextRow(currentRow, chunkSize, height);
      RenderRows(start, endRow);
      ProgressAdvances(start, endRow, height);
      progress := Progress(endRow, height);
      var chunk := CopyChunk(start);
      CopyShowsFrame(chunk, start);
      ScheduleAdvances(emitted, start, chunkSize, height);
      currentRow := endRow;
      emitted := emitted + [Span(start, endRow)];
      var more := currentRow < height;
      if !more {
        rendering := false;
      }
      out := Emitted(Span(start, endRow), chunk, progress, more);
    }

    /** The step the render makes as soon as it is set up: nothing can have
        cancelled it yet, so it always emits the first range of the schedule. */
    method Start() returns (out: StepOutcome)
      requires Valid() && currentRow == 0 && emitted == [] && !cancelled
      modifies this`currentRow, this`progress, this`rendering, this`emitted, data
      ensures Valid() && !cancelled
      ensures currentRow == NextRow(0, chunkSize, height)
      ensures out.Emitted? && out.span == Span(0, currentRow)
      ensures emitted == [out.span] && emitted == [Ranges(0, chunkSize, height)[0]]
      ensures out.progress == progress && out.scheduleNext == (currentRow < height)
      ensures fresh(out.pixels) && ChunkHolds(out.pixels, 0, currentRow)
    {
      out := Step();
    }
  }

  /** Once cancelled, a render stays silent: every further step of it, however
      many the host still makes, is skipped and changes nothing. */
  method StepsAfterCancel(r: Renderer, steps: nat) returns (late: seq<StepOutcome>)
    requires r.Valid() && r.cancelled && r.currentRow < r.height
    modifies r, r.data
    ensures |late| == steps && forall i :: 0 <= i < steps ==> late[i] == Skipped
    ensures unchanged(r) && unchanged(r.data)
  {
    late := [];
    while |late| < steps
      invariant |late| <= steps && forall i :: 0 <= i < |late| ==> late[i] == Skipped
      invariant r.Valid() && r.cancelled && r.currentRow < r.height
      invariant unchanged(r) && unchanged(r.data)
      decreases steps - |late|
    {
      var out := r.Step();
      late := late + [out];
    }
  }

  /** Set up the render of view v on a width x height frame and make its first
      step at once. */
  method Launch(v: View, width: nat, height: nat) returns (r: Renderer, first: StepOutcome)
    requires width >= 1 && height >= 1
    ensures fresh(r) && fresh(r.data)
    ensures r.Valid() && r.view == v && r.width == width && r.height == height && r.maxIter == MaxIter
    ensures !r.cancelled && r.currentRow == NextRow(0, r.chunkSize, height)
    ensures first.Emitted? && first.span == Span(0, r.currentRow) && r.emitted == [first.span]
    ensures first.progress == r.progress && first.scheduleNext == (r.currentRow < height)
    ensures fresh(first.pixels) && r.ChunkHolds(first.pixels, 0, r.currentRow)
  {
    r := new Renderer(v, width, height);
    first := r.Start();
  }

  /** A finished render has gone through exactly the schedule of the frame,
      and the buffer holds the colour of every pixel. */
  lemma CompletedRender(r: Renderer)
    requires r.Valid() && r.currentRow == r.height
    ensures r.emitted == Ranges(0, r.chunkSize, r.height)
    ensures r.progress == 100 && !r.rendering
    ensures forall y, x, k :: 0 <= y < r.height && 0 <= x < r.width && 0 <= k < 4 ==>
      r.data[Index(r.width, r.height, x, y, k)] == FrameByte(r.view, r.width, r.height, r.maxIter, x, y, k)
  {
    assert Ranges(r.currentRow, r.chunkSize, r.height) == [];
    ProgressFull(r.height);
    forall y, x, k | 0 <= y < r.height && 0 <= x < r.width && 0 <= k < 4
      ensures r.data[Index(r.width, r.height, x, y, k)] == FrameByte(r.view, r.width, r.height, r.maxIter, x, y, k)
    {
      assert r.image[y][x] == PixelColour(r.view, r.width, r.height, r.maxIter, x, y);
    }
  }

  /** A host that makes the next step whenever the last one asked for it, and
      never cancels: the render finishes after exactly as many steps as the
      schedule has ranges, ceil(height / chunkSize), with the whole frame in
      the buffer and progress 100. */
  method RenderFrame(v: View, width: nat, height: nat) returns (r: Renderer, steps: nat)
    requires width >= 1 && height >= 1
    ensures fresh(r) && r.Valid() && r.view == v && r.width == width && r.height == height
    ensures steps == |Ranges(0, r.chunkSize, height)| && (steps - 1) * r.chunkSize < height <= steps * r.chunkSize
    ensures r.currentRow == height && r.emitted == Ranges(0, r.chunkSize, height)
    ensures r.progress == 100 && !r.rendering
    ensures forall y, x, k :: 0 <= y < height && 0 <= x < width && 0 <= k < 4 ==>
      r.data[Index(width, height, x, y, k)] == FrameByte(v, width, height, r.maxIter, x, y, k)
  {
    var first;
    r, first := Launch(v, width, height);
    steps := 1;
    var more := first.scheduleNext;
    while more
      invariant fresh(r) && fresh(r.data) && r.view == v && r.width == width && r.height == height
      invariant r.Valid() && !r.cancelled && steps == |r.emitted|
      invariant more <==> r.currentRow < r.height
      decreases r.height - r.currentRow
    {
      var out := r.Step();
      steps := steps + 1;
      more := out.scheduleNext;
    }
    CompletedRender(r);
    RangesCount(0, r.chunkSize, height);
  }

  /** Every written pixel is opaque. */
  lemma AlphaIsOpaque(v: View, width: nat, height: nat, maxIter: nat, x: nat, y: nat)
    requires width > 0
    ensures FrameByte(v, width, height, maxIter, x, y, 3) == 255
  {
  }

  /** On a frame of even width and height, the centre pixel of the initial
      view (pixel (400, 300) of an 800 x 600 frame, say) shows the point 0,
      which never escapes, and so is black. */
  lemma InitialCentreIsBlack(width: nat, height: nat, maxIter: nat)
    requires width > 0 && width % 2 == 0 && height % 2 == 0
    ensures PlaneX(InitialView, (width / 2) as real, width) == 0.0
    ensures PlaneY(InitialView, (height / 2) as real, width, height) == 0.0
    ensures PixelColour(InitialView, width, height, maxIter, width / 2, height / 2) == Black
  {
    assert (width / 2) as real == width as real / 2.0;
    assert (height / 2) as real == height as real / 2.0;
    OriginNeverEscapes(maxIter);
  }
}
