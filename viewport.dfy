/** Mapping from pixel positions to the complex plane, and the navigation
    gestures (zoom in, zoom out, reset) that derive a new view from a click. */
module Viewport {

  /** The part of the complex plane on screen: its centre and the half-width
      of the visible range along the x axis (`scale`). */
  datatype View = View(centerX: real, centerY: real, scale: real)

  /** Initial centre (0, 0) and initial scale 2; also the target of a reset. */
  const InitialView: View := View(0.0, 0.0, 2.0)

  /** Real part of the plane point drawn at pixel column `px`. */
  function PlaneX(v: View, px: real, width: nat): real
    requires width > 0
  {
    v.centerX + (px - width as real / 2.0) * (v.scale * 2.0) / width as real
  }

  /** Imaginary part of the plane point drawn at pixel row `py`.  The divisor
      is the frame WIDTH, as for the x axis, so pixels are square in the plane. */
  function PlaneY(v: View, py: real, width: nat, height: nat): real
    requires width > 0
  {
    v.centerY + (py - height as real / 2.0) * (v.scale * 2.0) / width as real
  }

  /** Inverse of PlaneX: the pixel column at which plane abscissa `x` is drawn. */
  function PixelX(v: View, x: real, width: nat): real
    requires width > 0 && v.scale != 0.0
  {
    (x - v.centerX) * width as real / (v.scale * 2.0) + width as real / 2.0
  }

  /** Inverse of PlaneY: the pixel row at which plane ordinate `y` is drawn. */
  function PixelY(v: View, y: real, width: nat, height: nat): real
    requires width > 0 && v.scale != 0.0
  {
    (y - v.centerY) * width as real / (v.scale * 2.0) + height as real / 2.0
  }

  /** Left click: centre on the clicked point and halve the scale. */
  function ZoomIn(v: View, clickX: real, clickY: real, width: nat, height: nat): (r: View)
    requires width > 0
    ensures v.scale > 0.0 ==> 0.0 < r.scale < v.scale
  {
    View(PlaneX(v, clickX, width), PlaneY(v, clickY, width, height), v.scale * 0.5)
  }

  /** Right click: centre on the clicked point and double the scale. */
  function ZoomOut(v: View, clickX: real, clickY: real, width: nat, height: nat): (r: View)
    requires width > 0
    ensures v.scale > 0.0 ==> 0.0 < v.scale < r.scale
  {
    View(PlaneX(v, clickX, width), PlaneY(v, clickY, width, height), v.scale * 2.0)
  }

  /** A pixel column and the plane abscissa it shows determine each other:
      PixelX undoes PlaneX and PlaneX undoes PixelX. */
  lemma ColumnRoundTrip(v: View, px: real, x: real, width: nat)
    requires width > 0 && v.scale != 0.0
    ensures PixelX(v, PlaneX(v, px, width), width) == px
    ensures PlaneX(v, PixelX(v, x, width), width) == x
  {
    var w, s2 := width as real, v.scale * 2.0;
    assert (px - w / 2.0) * s2 / w * w / s2 == px - w / 2.0;
    assert (x - v.centerX) * w / s2 * s2 / w == x - v.centerX;
  }

  /** A pixel row and the plane ordinate it shows determine each other:
      PixelY undoes PlaneY and PlaneY undoes PixelY. */
  lemma RowRoundTrip(v: View, py: real, y: real, width: nat, height: nat)
    requires width > 0 && v.scale != 0.0
    ensures PixelY(v, PlaneY(v, py, width, height), width, height) == py
    ensures PlaneY(v, PixelY(v, y, width, height), width, height) == y
  {
    var w, s2 := width as real, v.scale * 2.0;
    assert (py - height as real / 2.0) * s2 / w * w / s2 == py - height as real / 2.0;
    assert (y - v.centerY) * w / s2 * s2 / w == y - v.centerY;
  }

  /** Adjacent columns and adjacent rows are the same plane distance apart,
      2 * scale / width, whatever the frame height. */
  lemma SquarePixels(v: View, px: real, py: real, width: nat, height: nat)
    requires width > 0
    ensures PlaneX(v, px + 1.0, width) - PlaneX(v, px, width) == v.scale * 2.0 / width as real
    ensures PlaneY(v, py + 1.0, width, height) - PlaneY(v, py, width, height) == v.scale * 2.0 / width as real
  {
    var w := width as real;
    assert (px + 1.0 - w / 2.0) * (v.scale * 2.0) == (px - w / 2.0) * (v.scale * 2.0) + v.scale * 2.0;
    assert (py + 1.0 - height as real / 2.0) * (v.scale * 2.0)
        == (py - height as real / 2.0) * (v.scale * 2.0) + v.scale * 2.0;
  }

  /** After either zoom, the clicked point is drawn at the centre of the frame. */
  lemma ZoomCentresClickedPoint(v: View, clickX: real, clickY: real, width: nat, height: nat)
    requires width > 0
    ensures var r := ZoomIn(v, clickX, clickY, width, height);
      PlaneX(r, width as real / 2.0, width) == PlaneX(v, clickX, width) &&
      PlaneY(r, height as real / 2.0, width, height) == PlaneY(v, clickY, width, height)
    ensures var r := ZoomOut(v, clickX, clickY, width, height);
      PlaneX(r, width as real / 2.0, width) == PlaneX(v, clickX, width) &&
      PlaneY(r, height as real / 2.0, width, height) == PlaneY(v, clickY, width, height)
  {
  }

  /** Zooming in halves, and zooming out doubles, the plane offset of every
      pixel from the centre of the frame. */
  lemma ZoomMagnification(v: View, clickX: real, clickY: real, px: real, py: real, width: nat, height: nat)
    requires width > 0
    ensures var r := ZoomIn(v, clickX, clickY, width, height);
      PlaneX(r, px, width) - r.centerX == (PlaneX(v, px, width) - v.centerX) / 2.0 &&
      PlaneY(r, py, width, height) - r.centerY == (PlaneY(v, py, width, height) - v.centerY) / 2.0
    ensures var r := ZoomOut(v, clickX, clickY, width, height);
      PlaneX(r, px, width) - r.centerX == (PlaneX(v, px, width) - v.centerX) * 2.0 &&
      PlaneY(r, py, width, height) - r.centerY == (PlaneY(v, py, width, height) - v.centerY) * 2.0
  {
    var w := width as real;
    var dx := px - w / 2.0;
    var dy := py - height as real / 2.0;
    assert dx * (v.scale * 0.5 * 2.0) / w == dx * (v.scale * 2.0) / w / 2.0;
    assert dy * (v.scale * 0.5 * 2.0) / w == dy * (v.scale * 2.0) / w / 2.0;
    assert dx * (v.scale * 2.0 * 2.0) / w == dx * (v.scale * 2.0) / w * 2.0;
    assert dy * (v.scale * 2.0 * 2.0) / w == dy * (v.scale * 2.0) / w * 2.0;
  }

  /** A right click at the centre of the frame undoes a left click there, and
      the other way round. */
  lemma ZoomOutUndoesZoomIn(v: View, width: nat, height: nat)
    requires width > 0
    ensures var cx, cy := width as real / 2.0, height as real / 2.0;
      ZoomOut(ZoomIn(v, cx, cy, width, height), cx, cy, width, height) == v &&
      ZoomIn(ZoomOut(v, cx, cy, width, height), cx, cy, width, height) == v
  {
  }
}
