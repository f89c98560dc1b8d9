/** The component around the renderer: the frame size, the current view, the
    render in flight, and the input handlers that replace the view.  Every
    change of size or view cancels the render in flight and starts a new one,
    whose first step runs at once. */
module App {
  import opened Viewport
  import opened Schedule
  import opened Render

  class Component {
    var width: nat
    var height: nat
    var view: View
    /** The one render that may still emit chunks. */
    var live: Renderer
    /** The outcome of the live render's first step, made as soon as it was
        set up: the chunk drawn at once and the progress reported with it. */
    var shown: StepOutcome

    ghost predicate Valid()
      reads this, live, live.data
    {
      live.Valid() &&
      live.view == view && live.width == width && live.height == height && live.maxIter == MaxIter &&
      view.scale > 0.0
    }

    /** The live render has just made its first step, and `shown` is what that
        step emitted: the first range, its copy and its progress. */
    ghost predicate JustStarted()
      reads this, live, if shown.Emitted? then {shown.pixels} else {}
    {
      live.chunkSize >= 1 && !live.cancelled && live.ImageIsFrame() &&
      live.currentRow == NextRow(0, live.chunkSize, live.height) && live.currentRow <= live.height &&
      live.emitted == [Span(0, NextRow(0, live.chunkSize, height))] &&
      shown.Emitted? && shown.span == Span(0, live.currentRow) &&
      shown.progress == live.progress && shown.scheduleNext == (live.currentRow < live.height) &&
      live.ChunkHolds(shown.pixels, 0, live.currentRow)
    }

    /** Mount: the initial view on a width x height frame. */
    constructor (width: nat, height: nat)
      requires width >= 1 && height >= 1
      ensures Valid() && JustStarted() && fresh(live) && fresh(live.data) && fresh(shown.pixels)
      ensures this.width == width && this.height == height && view == InitialView
    {
      var renderer, first := Launch(InitialView, width, height);
      this.width := width;
      this.height := height;
      view := InitialView;
      live := renderer;
      shown := first;
    }

    /** Cleanup of the render in flight, then a new render of the current
        view and frame size with its first step. */
    method Restart()
      requires width >= 1 && height >= 1 && view.scale > 0.0 && live.Valid()
      modifies this`live, this`shown, live`cancelled
      ensures old(live).cancelled
      ensures fresh(live) && fresh(live.data)
      ensures Valid() && JustStarted() && fresh(shown.pixels)
    {
      live.Cancel();
      var renderer, first := Launch(view, width, height);
      live := renderer;
      shown := first;
    }

    /** Left click (button 0) at (clickX, clickY): zoom in there.  Other
        buttons are ignored. */
    method Click(clickX: real, clickY: real, button: int)
      requires Valid()
      modifies this, live`cancelled
      ensures Valid() && width == old(width) && height == old(height)
      ensures button == 0 ==>
        view == ZoomIn(old(view), clickX, clickY, width, height) &&
        old(live).cancelled && fresh(live) && fresh(live.data) && JustStarted() && fresh(shown.pixels)
      ensures button != 0 ==> view == old(view) && live == old(live) && shown == old(shown) && unchanged(live)
    {
      if button == 0 {
        view := ZoomIn(view, clickX, clickY, width, height);
        Restart();
      }
    }

    /** Right click at (clickX, clickY): zoom out there. */
    method ContextMenu(clickX: real, clickY: real)
      requires Valid()
      modifies this, live`cancelled
      ensures Valid() && width == old(width) && height == old(height)
      ensures view == ZoomOut(old(view), clickX, clickY, width, height)
      ensures old(live).cancelled && fresh(live) && fresh(live.data) && JustStarted() && fresh(shown.pixels)
    {
      view := ZoomOut(view, clickX, clickY, width, height);
      Restart();
    }

    /** Escape resets the view.  Setting the state to the value it already
        has does not re-run the render, so a reset of the initial view keeps
        the render in flight. */
    method KeyDown(key: string)
      requires Valid()
      modifies this, live`cancelled
      ensures Valid() && width == old(width) && height == old(height)
      ensures key == "Escape" ==> view == InitialView
      ensures key == "Escape" && old(view) != InitialView ==>
        old(live).cancelled && fresh(live) && fresh(live.data) && JustStarted() && fresh(shown.pixels)
      ensures key != "Escape" || old(view) == InitialView ==>
        view == old(view) && live == old(live) && shown == old(shown) && unchanged(live)
    {
      if key == "Escape" && view != InitialView {
        view := InitialView;
        Restart();
      }
    }

    /** The window was resized to newWidth x newHeight. */
    method Resize(newWidth: nat, newHeight: nat)
      requires Valid() && newWidth >= 1 && newHeight >= 1
      modifies this, live`cancelled
      ensures Valid() && view == old(view) && width == newWidth && height == newHeight
      ensures old(live).cancelled && fresh(live) && fresh(live.data) && JustStarted() && fresh(shown.pixels)
    {
      width, height := newWidth, newHeight;
      Restart();
    }
    /** Dispatch of one gesture to its handler.  The render in flight is
        replaced exactly when the gesture restarts it. */
    method Handle(g: Gesture)
      requires Valid()
      requires g.Resized? ==> g.newWidth >= 1 && g.newHeight >= 1
      modifies this, live`cancelled
      ensures Valid()
      ensures Restarts(g, old(view)) <==> live != old(live)
      ensures Restarts(g, old(view)) ==>
        old(live).cancelled && fresh(live) && fresh(live.data) && JustStarted() && fresh(shown.pixels)
      ensures !Restarts(g, old(view)) ==> view == old(view) && shown == old(shown) && unchanged(live)
    {
      match g {
        case LeftClick(x, y, button) => Click(x, y, button);
        case RightClick(x, y) => ContextMenu(x, y);
        case Key(key) => KeyDown(key);
        case Resized(w, h) => Resize(w, h);
      }
    }
  }

  /** An input event the component handles. */
  datatype Gesture =
    | LeftClick(x: real, y: real, button: int)
    | RightClick(x: real, y: real)
    | Key(key: string)
    | Resized(newWidth: nat, newHeight: nat)

  /** Whether the gesture replaces the view or the size, and so restarts the
      render: every right click and resize, a click with button 0, and Escape
      unless the view is already the initial one. */
  predicate Restarts(g: Gesture, view: View) {
    match g
    case LeftClick(_, _, button) => button == 0
    case RightClick(_, _) => true
    case Key(key) => key == "Escape" && view != InitialView
    case Resized(_, _) => true
  }

  /** After any gesture that restarts the render, every one of the steps of
      the superseded render that are still scheduled emits nothing and leaves
      that render as it was; the new render is untouched by them. */
  method SupersededRenderIsSilent(c: Component, g: Gesture, steps: nat) returns (late: seq<StepOutcome>)
    requires c.Valid() && c.live.currentRow < c.live.height
    requires g.Resized? ==> g.newWidth >= 1 && g.newHeight >= 1
    modifies c, c.live, c.live.data
    ensures c.Valid()
    ensures Restarts(g, old(c.view)) <==> c.live != old(c.live)
    ensures Restarts(g, old(c.view)) ==>
      old(c.live).cancelled && fresh(c.live) && c.JustStarted() &&
      |late| == steps && (forall i :: 0 <= i < steps ==> late[i] == Skipped) &&
      old(c.live).currentRow == old(c.live.currentRow) && old(c.live).emitted == old(c.live.emitted) &&
      old(c.live).progress == old(c.live.progress) && old(c.live).rendering == old(c.live.rendering) &&
      (forall i :: 0 <= i < old(c.live).data.Length ==> old(c.live).data[i] == old(c.live.data[i]))
  {
    var superseded := c.live;
    c.Handle(g);
    late := [];
    if c.live != superseded {
      late := StepsAfterCancel(superseded, steps);
    }
  }
}
