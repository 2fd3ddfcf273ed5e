/** The pan-and-zoom state every editor's main view keeps
    (pyspine/old_pyspine/viewport_common.py): an offset in screen pixels
    and a zoom factor, with conversions between screen and world
    ("viewport") coordinates.

    Python's `ZeroDivisionError` on a zero zoom is the `None` of the
    conversions and the `false` of `HandleZoom`. */
module Viewport {
  import opened Types

  const MinZoom := 0.1
  const MaxZoom := 5.0

  /** `max(lo, min(hi, z))`. */
  function Clamp(z: real, lo: real, hi: real): (r: real)
    requires lo <= hi
    ensures lo <= r <= hi
    ensures lo <= z <= hi ==> r == z
  {
    MaxReal(lo, MinReal(hi, z))
  }

  class ViewportManager {
    var offsetX: real
    var offsetY: real
    var zoom: real
    var dragging: bool
    var lastMouse: (real, real)

    constructor (initialOffset: (real, real), initialZoom: real := 1.0)
      ensures offsetX == initialOffset.0 && offsetY == initialOffset.1 && zoom == initialZoom
      ensures !dragging && lastMouse == (0.0, 0.0)
    {
      offsetX, offsetY := initialOffset.0, initialOffset.1;
      zoom := initialZoom;
      dragging := false;
      lastMouse := (0.0, 0.0);
    }

    /** `screen_to_viewport(pos, toolbar_height)`. */
    function ScreenToViewport(pos: (real, real), toolbar: real := 0.0): (r: Option<(real, real)>)
      reads this
      ensures r.Some? <==> zoom != 0.0
      ensures r.Some? ==> r.value.0 * zoom == pos.0 - offsetX && r.value.1 * zoom == pos.1 - toolbar - offsetY
    {
      if zoom == 0.0 then None
      else Some(((pos.0 - offsetX) / zoom, (pos.1 - toolbar - offsetY) / zoom))
    }

    /** `viewport_to_screen(pos, toolbar_height)`. */
    function ViewportToScreen(pos: (real, real), toolbar: real := 0.0): (r: (real, real))
      reads this
      ensures r.0 - offsetX == pos.0 * zoom && r.1 - offsetY - toolbar == pos.1 * zoom
    {
      (pos.0 * zoom + offsetX, pos.1 * zoom + offsetY + toolbar)
    }

    /** A screen point converted to world coordinates and back is the same
        point, for any toolbar height, whenever the zoom is not zero. */
    lemma ScreenRoundTrip(pos: (real, real), toolbar: real)
      requires zoom != 0.0
      ensures ScreenToViewport(pos, toolbar).Some?
      ensures ViewportToScreen(ScreenToViewport(pos, toolbar).value, toolbar) == pos
    {
      var w := ScreenToViewport(pos, toolbar).value;
      var s := ViewportToScreen(w, toolbar);
      assert s.0 == pos.0 && s.1 == pos.1;
    }

    /** A world point converted to the screen and back is the same point. */
    lemma WorldRoundTrip(pos: (real, real), toolbar: real)
      requires zoom != 0.0
      ensures ScreenToViewport(ViewportToScreen(pos, toolbar), toolbar) == Some(pos)
    {
      var s := ViewportToScreen(pos, toolbar);
      var w := ScreenToViewport(s, toolbar).value;
      assert w.0 * zoom == pos.0 * zoom;
      assert w.1 * zoom == pos.1 * zoom;
    }

    /** `handle_zoom`: the zoom is multiplied by 1.1 for a wheel step up and
        by 0.9 otherwise, clamped to [0.1, 5.0], and the offset moves so
        that the world point under the mouse stays under it. From a zero
        zoom the clamped zoom is stored and the ratio then divides by zero:
        the offset is left as it was and `ok` is false. */
    method HandleZoom(wheelUp: bool, mouse: (real, real)) returns (ok: bool)
      modifies this`zoom, this`offsetX, this`offsetY
      ensures MinZoom <= zoom <= MaxZoom
      ensures zoom == Clamp(old(zoom) * (if wheelUp then 1.1 else 0.9), MinZoom, MaxZoom)
      ensures ok <==> old(zoom) != 0.0
      ensures !ok ==> offsetX == old(offsetX) && offsetY == old(offsetY)
      ensures ok ==> ScreenToViewport(mouse) == old(ScreenToViewport(mouse))
    {
      var factor := if wheelUp then 1.1 else 0.9;
      var oldZoom := zoom;
      zoom := Clamp(zoom * factor, MinZoom, MaxZoom);
      if oldZoom == 0.0 {
        return false;
      }
      var ratio := zoom / oldZoom;
      offsetX := mouse.0 - (mouse.0 - offsetX) * ratio;
      offsetY := mouse.1 - (mouse.1 - offsetY) * ratio;
      FixedUnderMouse(mouse.0, old(offsetX), oldZoom, zoom);
      FixedUnderMouse(mouse.1 - 0.0, old(offsetY), oldZoom, zoom);
      assert ScreenToViewport(mouse).value.0 == old(ScreenToViewport(mouse)).value.0;
      assert ScreenToViewport(mouse).value.1 == old(ScreenToViewport(mouse)).value.1;
      return true;
    }

    /** `handle_drag`: while the view is being dragged the offset follows
        the mouse by its movement since `last_mouse_pos`. */
    method HandleDrag(mouse: (real, real))
      modifies this`offsetX, this`offsetY
      ensures !dragging ==> offsetX == old(offsetX) && offsetY == old(offsetY)
      ensures dragging ==>
        offsetX - old(offsetX) == mouse.0 - lastMouse.0 && offsetY - old(offsetY) == mouse.1 - lastMouse.1
    {
      if dragging {
        offsetX := offsetX + (mouse.0 - lastMouse.0);
        offsetY := offsetY + (mouse.1 - lastMouse.1);
      }
    }

    /** `reset_viewport`: the default offset (copied) and zoom. */
    method ResetViewport(defaultOffset: (real, real), defaultZoom: real := 1.0)
      modifies this`offsetX, this`offsetY, this`zoom
      ensures offsetX == defaultOffset.0 && offsetY == defaultOffset.1 && zoom == defaultZoom
    {
      offsetX, offsetY := defaultOffset.0, defaultOffset.1;
      zoom := defaultZoom;
    }
  }

  /** One coordinate of the zoom step: with the new offset
      `m - (m - o) * (z1 / z0)`, the world coordinate under `m` is the same
      at zoom `z1` as it was at zoom `z0`. */
  lemma FixedUnderMouse(m: real, o: real, z0: real, z1: real)
    requires z0 != 0.0 && z1 != 0.0
    ensures (m - (m - (m - o) * (z1 / z0))) / z1 == (m - o) / z0
  {
    var w := (m - o) / z0;
    assert (m - o) * (z1 / z0) == w * z1;
  }
}
