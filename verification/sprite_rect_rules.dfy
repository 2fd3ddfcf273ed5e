/** The sprite-rectangle editing rules shared by the sprite-sheet editors
    (pyspine/PySpine_SpriteSheetEditor.py, its GUI twin
    pyspine/Editor_SpriteSheet.py, pyspine/old_pyspine/NewEditor_SpriteSheet.py
    and pyspine/boneless_sprite_editor.py): which sprite a click hits, which
    resize handle it grabs, and the new bounds, position and origin while a
    handle, a sprite or its origin is dragged.

    Rectangles are `SpriteCommands.Bounds` over `int`; mouse positions in
    world coordinates are pairs of reals. A loaded sprite sheet is its size
    `Some((width, height))`; no sheet is `None`. */
module SpriteRectRules {
  import opened Types
  import SC = SpriteCommands
  import FC = FileCommon

  type Handle = ResizeHandle

  /** The handles that drag the left, right, top or bottom edge. */
  predicate MovesLeft(h: Handle) { h == TopLeft || h == BottomLeft || h == Left }
  predicate MovesRight(h: Handle) { h == TopRight || h == BottomRight || h == Right }
  predicate MovesTop(h: Handle) { h == TopLeft || h == TopRight || h == Top }
  predicate MovesBottom(h: Handle) { h == BottomLeft || h == BottomRight || h == Bottom }

  // ----- hit tests -------------------------------------------------------------

  /** The closed rectangle contains the point. */
  predicate Contains(b: SC.Bounds, p: (real, real)) {
    b.x as real <= p.0 <= (b.x + b.width) as real && b.y as real <= p.1 <= (b.y + b.height) as real
  }

  /** Every name of the insertion order has a rectangle. */
  predicate Covers(order: seq<string>, rects: map<string, SC.Bounds>) {
    forall i :: 0 <= i < |order| ==> order[i] in rects
  }

  /** `_get_sprite_at_position`: the keys are scanned from the most recently
      inserted one backwards and the first whose rectangle contains the
      point wins. */
  function TopmostAt(order: seq<string>, rects: map<string, SC.Bounds>, p: (real, real)): (r: Option<string>)
    requires Covers(order, rects)
    ensures r.None? <==> forall i :: 0 <= i < |order| ==> !Contains(rects[order[i]], p)
    ensures r.Some? ==> exists i :: (0 <= i < |order| && order[i] == r.value && Contains(rects[r.value], p) &&
      forall j :: i < j < |order| ==> !Contains(rects[order[j]], p))
  {
    if order == [] then None
    else if Contains(rects[order[|order| - 1]], p) then Some(order[|order| - 1])
    else
      var r := TopmostAt(order[..|order| - 1], rects, p);
      assert forall i :: 0 <= i < |order| - 1 ==> order[..|order| - 1][i] == order[i];
      r
  }

  /** `get_objects_at_position`: every name whose rectangle contains the
      point, most recently inserted first. */
  function AllAt(order: seq<string>, rects: map<string, SC.Bounds>, p: (real, real)): (r: seq<string>)
    requires Covers(order, rects)
    ensures forall k :: k in r <==> k in order && Contains(rects[k], p)
    ensures |r| <= |order|
  {
    if order == [] then []
    else
      var last := order[|order| - 1];
      var rest := AllAt(order[..|order| - 1], rects, p);
      assert forall k :: k in order <==> k == last || k in order[..|order| - 1];
      if Contains(rects[last], p) then [last] + rest else rest
  }

  /** The single hit of the sprite-sheet editors is the head of the
      boneless editor's hit list. */
  lemma {:induction false} TopmostIsFirstHit(order: seq<string>, rects: map<string, SC.Bounds>, p: (real, real))
    requires Covers(order, rects)
    ensures TopmostAt(order, rects, p) == if AllAt(order, rects, p) == [] then None else Some(AllAt(order, rects, p)[0])
  {
    if order != [] && !Contains(rects[order[|order| - 1]], p) {
      TopmostIsFirstHit(order[..|order| - 1], rects, p);
    }
  }

  // ----- resize handles --------------------------------------------------------

  /** Where a handle sits on the rectangle: the four corners, and the
      midpoints of the four edges. */
  function HandlePoint(b: SC.Bounds, h: Handle): (real, real) {
    var l, t := b.x as real, b.y as real;
    var r, bo := (b.x + b.width) as real, (b.y + b.height) as real;
    var mx, my := l + b.width as real / 2.0, t + b.height as real / 2.0;
    match h
    case TopLeft => (l, t)
    case TopRight => (r, t)
    case BottomLeft => (l, bo)
    case BottomRight => (r, bo)
    case Top => (mx, t)
    case Bottom => (mx, bo)
    case Left => (l, my)
    case Right => (r, my)
    case NoHandle => (l, t)
  }

  /** Both coordinates are within the handle size: strictly in the current
      editors, up to and including it in the old one. */
  predicate Near(p: (real, real), at: (real, real), size: real, inclusive: bool) {
    if inclusive then Abs(p.0 - at.0) <= size && Abs(p.1 - at.1) <= size
    else Abs(p.0 - at.0) < size && Abs(p.1 - at.1) < size
  }

  const Corners: seq<Handle> := [TopLeft, TopRight, BottomLeft, BottomRight]
  const Edges: seq<Handle> := [Top, Bottom, Left, Right]

  /** The first handle of the list the point is near. */
  function FirstNear(b: SC.Bounds, hs: seq<Handle>, p: (real, real), size: real, inclusive: bool): (r: Handle)
    requires NoHandle !in hs
    ensures r == NoHandle <==> forall i :: 0 <= i < |hs| ==> !Near(p, HandlePoint(b, hs[i]), size, inclusive)
    ensures r != NoHandle ==> r in hs && Near(p, HandlePoint(b, r), size, inclusive)
    ensures r != NoHandle ==> exists i :: (0 <= i < |hs| && hs[i] == r &&
      forall j :: 0 <= j < i ==> !Near(p, HandlePoint(b, hs[j]), size, inclusive))
  {
    if hs == [] then NoHandle
    else if Near(p, HandlePoint(b, hs[0]), size, inclusive) then hs[0]
    else
      var r := FirstNear(b, hs[1..], p, size, inclusive);
      assert forall i :: 1 <= i < |hs| ==> hs[1..][i - 1] == hs[i];
      r
  }

  /** `_get_resize_handle_at_position`: corners are checked before edges, so
      a point near a corner and an edge midpoint grabs the corner. */
  function HandleAt(b: SC.Bounds, p: (real, real), size: real, inclusive: bool): (r: Handle)
    ensures r in Corners ==> Near(p, HandlePoint(b, r), size, inclusive)
    ensures r in Edges ==> (Near(p, HandlePoint(b, r), size, inclusive) &&
      forall c :: c in Corners ==> !Near(p, HandlePoint(b, c), size, inclusive))
    ensures r == NoHandle <==> forall h :: h != NoHandle ==> !Near(p, HandlePoint(b, h), size, inclusive)
  {
    var c := FirstNear(b, Corners, p, size, inclusive);
    if c != NoHandle then c
    else
      var e := FirstNear(b, Edges, p, size, inclusive);
      assert forall h :: h in Corners ==> !Near(p, HandlePoint(b, h), size, inclusive) by {
        forall h | h in Corners ensures !Near(p, HandlePoint(b, h), size, inclusive) {
          var i :| 0 <= i < |Corners| && Corners[i] == h;
        }
      }
      assert forall h :: h in Edges && e == NoHandle ==> !Near(p, HandlePoint(b, h), size, inclusive) by {
        forall h | h in Edges && e == NoHandle ensures !Near(p, HandlePoint(b, h), size, inclusive) {
          var i :| 0 <= i < |Edges| && Edges[i] == h;
        }
      }
      assert forall h :: h != NoHandle ==> h in Corners || h in Edges;
      e
  }

  /** The handle size `max(minimum, int(scale / zoom))` (2 and 3 in the
      sprite-sheet editor, 3 and 5 in the boneless one, 8 and 10 in the old
      one). */
  function HandleSize(minimum: int, scale: real, zoom: real): (s: int)
    requires zoom != 0.0
    ensures s >= minimum && s >= PyInt(scale / zoom)
  {
    MaxI(minimum, PyInt(scale / zoom))
  }

  /** `distance < hit_radius` for the origin (or endpoint) marker at the
      fractions `fx`, `fy` of the rectangle, compared on squares since the
      radius is positive. */
  predicate MarkerHit(b: SC.Bounds, fx: real, fy: real, p: (real, real), radius: int)
  {
    var mx := b.x as real + b.width as real * fx;
    var my := b.y as real + b.height as real * fy;
    (p.0 - mx) * (p.0 - mx) + (p.1 - my) * (p.1 - my) < (radius * radius) as real
  }

  // ----- resizing --------------------------------------------------------------

  /** One axis of `_update_sprite_resize` after the handle has set the moved
      edges: a span under 5 is widened to 5 by moving the dragged edge (the
      low one when `moveLow`), then with a sheet the low edge is clamped to
      [0, size] and the high one to at most `size`, yet at least 5 past the
      low one. */
  function ResizeAxis(lo: real, hi: real, moveLow: bool, size: Option<nat>): (r: (real, real))
    ensures r.1 - r.0 >= 5.0
    ensures size.Some? ==> 0.0 <= r.0 <= size.value as real
    ensures size.Some? ==> r.1 <= size.value as real || r.1 == r.0 + 5.0
    ensures size.None? && hi - lo >= 5.0 ==> r == (lo, hi)
    ensures size.None? && moveLow ==> r.1 == hi
    ensures size.None? && !moveLow ==> r.0 == lo
  {
    var (l, h) := if hi - lo >= 5.0 then (lo, hi) else if moveLow then (hi - 5.0, hi) else (lo, lo + 5.0);
    if size.None? then (l, h)
    else
      var s := size.value as real;
      var l1 := MaxReal(0.0, MinReal(l, s));
      (l1, MaxReal(l1 + 5.0, MinReal(h, s)))
  }

  /** `int()` of the four edges: left, top, and the two spans. */
  function EdgesToBounds(l: real, t: real, r: real, b: real): SC.Bounds {
    SC.Bounds(PyInt(l), PyInt(t), PyInt(r - l), PyInt(b - t))
  }

  /** A sheet size's width and height, each possibly absent. */
  function SheetW(sheet: Option<(nat, nat)>): Option<nat> { if sheet.Some? then Some(sheet.value.0) else None }
  function SheetH(sheet: Option<(nat, nat)>): Option<nat> { if sheet.Some? then Some(sheet.value.1) else None }

  /** An edge of the rectangle at the start of the drag, or the mouse
      coordinate when the grabbed handle moves that edge. */
  function Edge(v: int, moved: bool, q: real): real { if moved then q else v as real }

  /** The bounds after a resize step from `start`: the grabbed handle moves
      its edges to the mouse and each axis goes through `ResizeAxis`, the
      low edge being the one widened back to 5 when `lowX` (`lowY`). */
  function Resized(start: SC.Bounds, h: Handle, p: (real, real), sheet: Option<(nat, nat)>, lowX: bool, lowY: bool): (r: SC.Bounds)
    ensures r.width >= 5 && r.height >= 5
    ensures sheet.Some? ==> 0 <= r.x <= sheet.value.0 && 0 <= r.y <= sheet.value.1
  {
    var x := ResizeAxis(Edge(start.x, MovesLeft(h), p.0), Edge(start.x + start.width, MovesRight(h), p.0), lowX, SheetW(sheet));
    var y := ResizeAxis(Edge(start.y, MovesTop(h), p.1), Edge(start.y + start.height, MovesBottom(h), p.1), lowY, SheetH(sheet));
    EdgesToBounds(x.0, y.0, x.1, y.1)
  }

  /** `_update_sprite_resize` of the sprite-sheet editor: from the bounds at
      the start of the drag the grabbed handle moves its edges to the mouse,
      and the side widened back to the minimum of 5 is the dragged one
      (`LEFT`, `TOP_LEFT`, `BOTTOM_LEFT` horizontally, `TOP`, `TOP_LEFT`,
      `TOP_RIGHT` vertically). Edges no handle moves stay put. */
  function ResizeBounds(start: SC.Bounds, h: Handle, p: (real, real), sheet: Option<(nat, nat)>): (r: SC.Bounds)
    ensures r.width >= 5 && r.height >= 5
    ensures sheet.Some? ==> 0 <= r.x <= sheet.value.0 && 0 <= r.y <= sheet.value.1
    ensures sheet.None? && !MovesLeft(h) ==> r.x == start.x
    ensures sheet.None? && !MovesTop(h) ==> r.y == start.y
    ensures sheet.None? && !MovesLeft(h) && !MovesRight(h) ==> r.width == MaxI(start.width, 5)
    ensures sheet.None? && !MovesTop(h) && !MovesBottom(h) ==> r.height == MaxI(start.height, 5)
    ensures sheet.None? && MovesRight(h) && p.0 - start.x as real >= 5.0 ==> r.width == PyInt(p.0 - start.x as real)
    ensures sheet.None? && MovesBottom(h) && p.1 - start.y as real >= 5.0 ==> r.height == PyInt(p.1 - start.y as real)
  {
    Resized(start, h, p, sheet, MovesLeft(h), MovesTop(h))
  }

  /** `update_sprite_resize` of the boneless editor: the same, except that
      the side widened back to 5 is the left (top) one exactly when the left
      (top) edge is no longer where the drag started. */
  function BonelessResizeBounds(start: SC.Bounds, h: Handle, p: (real, real), sheet: Option<(nat, nat)>): (r: SC.Bounds)
    ensures r.width >= 5 && r.height >= 5
    ensures sheet.Some? ==> 0 <= r.x <= sheet.value.0 && 0 <= r.y <= sheet.value.1
  {
    Resized(start, h, p, sheet,
      Edge(start.x, MovesLeft(h), p.0) != start.x as real, Edge(start.y, MovesTop(h), p.1) != start.y as real)
  }

  /** The two editors' minimum-size rules differ only when a rectangle
      already narrower (or lower) than 5 is grabbed by a left (top) handle
      exactly on its old edge: from bounds at least 5 wide and high both
      compute the same bounds. */
  lemma ResizeRulesAgree(start: SC.Bounds, h: Handle, p: (real, real), sheet: Option<(nat, nat)>)
    requires start.width >= 5 && start.height >= 5
    ensures BonelessResizeBounds(start, h, p, sheet) == ResizeBounds(start, h, p, sheet)
  {
    var l, r := Edge(start.x, MovesLeft(h), p.0), Edge(start.x + start.width, MovesRight(h), p.0);
    var t, b := Edge(start.y, MovesTop(h), p.1), Edge(start.y + start.height, MovesBottom(h), p.1);
    AxisRuleAgrees(start.x as real, (start.x + start.width) as real, l, r, MovesLeft(h), MovesRight(h), SheetW(sheet));
    AxisRuleAgrees(start.y as real, (start.y + start.height) as real, t, b, MovesTop(h), MovesBottom(h), SheetH(sheet));
    SameAxesSameBounds(start, h, p, sheet, l != start.x as real, t != start.y as real, MovesLeft(h), MovesTop(h));
  }

  /** `Resized` depends on its flags only through the two axes. */
  lemma SameAxesSameBounds(start: SC.Bounds, h: Handle, p: (real, real), sheet: Option<(nat, nat)>,
                           x1: bool, y1: bool, x2: bool, y2: bool)
    requires ResizeAxis(Edge(start.x, MovesLeft(h), p.0), Edge(start.x + start.width, MovesRight(h), p.0), x1, SheetW(sheet))
          == ResizeAxis(Edge(start.x, MovesLeft(h), p.0), Edge(start.x + start.width, MovesRight(h), p.0), x2, SheetW(sheet))
    requires ResizeAxis(Edge(start.y, MovesTop(h), p.1), Edge(start.y + start.height, MovesBottom(h), p.1), y1, SheetH(sheet))
          == ResizeAxis(Edge(start.y, MovesTop(h), p.1), Edge(start.y + start.height, MovesBottom(h), p.1), y2, SheetH(sheet))
    ensures Resized(start, h, p, sheet, x1, y1) == Resized(start, h, p, sheet, x2, y2)
  {
  }

  /** One axis of `ResizeRulesAgree`: a handle moves at most one of the two
      edges, and when the low edge did not move the span is the old one. */
  lemma AxisRuleAgrees(lo0: real, hi0: real, lo: real, hi: real, movesLow: bool, movesHigh: bool, size: Option<nat>)
    requires hi0 - lo0 >= 5.0
    requires !movesLow ==> lo == lo0
    requires !movesHigh ==> hi == hi0
    requires !(movesLow && movesHigh)
    ensures ResizeAxis(lo, hi, lo != lo0, size) == ResizeAxis(lo, hi, movesLow, size)
  {
    if hi - lo < 5.0 {
      assert movesLow <==> lo != lo0;
    }
  }

  // ----- dragging --------------------------------------------------------------

  /** One coordinate of `_update_sprite_drag`: the mouse minus the grab
      offset, clamped with a sheet to [0, size - extent], then `int()`. */
  function DragAxis(p: real, offset: real, extent: int, size: Option<nat>): (n: int)
    ensures size.Some? ==> n >= 0
    ensures size.Some? && extent <= size.value ==> n <= size.value - extent
    ensures size.Some? && 0.0 <= p - offset <= (size.value - extent) as real ==> n == PyInt(p - offset)
    ensures size.None? ==> n == PyInt(p - offset)
  {
    if size.None? then PyInt(p - offset)
    else PyInt(MaxReal(0.0, MinReal(p - offset, (size.value - extent) as real)))
  }

  /** The old editor's drag: `max(0, int(p - offset))`, with no sheet
      clamp. */
  function LegacyDragAxis(p: real, offset: real): (n: int)
    ensures n >= 0
    ensures p - offset >= 0.0 ==> n == PyInt(p - offset)
    ensures p - offset < 0.0 ==> n == 0
  {
    MaxI(0, PyInt(p - offset))
  }

  // ----- origin and endpoint ---------------------------------------------------

  /** One coordinate of `_update_origin_drag` (and of the boneless
      endpoint drag): the mouse's fraction of the way across the rectangle,
      0.5 for a zero or negative extent, clamped to [0, 1]. */
  function MarkerAxis(p: real, lo: int, extent: int): (f: real)
    ensures 0.0 <= f <= 1.0
    ensures extent <= 0 ==> f == 0.5
    ensures extent > 0 && lo as real <= p <= (lo + extent) as real ==> f * extent as real == p - lo as real
    ensures extent > 0 && p <= lo as real ==> f == 0.0
    ensures extent > 0 && p >= (lo + extent) as real ==> f == 1.0
  {
    if extent <= 0 then 0.5
    else
      var rel := (p - lo as real) / extent as real;
      assert rel * extent as real == p - lo as real;
      assert p <= lo as real ==> rel <= 0.0;
      assert p >= (lo + extent) as real ==> rel >= 1.0;
      MaxReal(0.0, MinReal(1.0, rel))
  }

  /** The old editor's origin drag divides by the extent unguarded: `None`
      is its `ZeroDivisionError` on a zero extent. */
  function LegacyMarkerAxis(p: real, lo: int, extent: int): (f: Option<real>)
    ensures f.None? <==> extent == 0
    ensures f.Some? ==> 0.0 <= f.value <= 1.0
    ensures extent > 0 ==> f == Some(MarkerAxis(p, lo, extent))
  {
    if extent == 0 then None
    else Some(MaxReal(0.0, MinReal(1.0, (p - lo as real) / extent as real)))
  }

  // ----- creation --------------------------------------------------------------

  /** One axis of `_update_sprite_creation`: from the press to the current
      mouse, the low end clamped to [0, size] and the span cut at the sheet's
      edge. */
  function CreationAxis(a: real, b: real, size: nat): (r: (int, int))
    ensures 0 <= r.0 <= size && 0 <= r.1 && r.0 + r.1 <= size
    ensures 0.0 <= a <= size as real && 0.0 <= b <= size as real ==>
      r == (PyInt(MinReal(a, b)), PyInt(Abs(b - a)))
  {
    var lo := MaxReal(0.0, MinReal(MinReal(a, b), size as real));
    var span := MinReal(Abs(b - a), size as real - lo);
    (PyInt(lo), PyInt(span))
  }

  /** `temp_sprite_rect` while a new sprite is dragged out over a loaded
      sheet: it lies inside the sheet. */
  function CreationRect(start: (real, real), p: (real, real), sheet: (nat, nat)): (r: SC.Bounds)
    ensures 0 <= r.x && 0 <= r.y && 0 <= r.width && 0 <= r.height
    ensures r.x + r.width <= sheet.0 && r.y + r.height <= sheet.1
  {
    var x := CreationAxis(start.0, p.0, sheet.0);
    var y := CreationAxis(start.1, p.1, sheet.1);
    SC.Bounds(x.0, y.0, x.1, y.1)
  }

  /** The release creates a sprite only when both sides exceed 5. */
  predicate BigEnough(b: SC.Bounds) { b.width > 5 && b.height > 5 }

  const DefaultSize := 50

  /** One axis of `_create_sprite_at_position`: a 50-pixel span at the
      position, kept on the sheet when one is loaded, then `int()`. */
  function AtPositionAxis(p: real, size: Option<nat>): (r: (int, int))
    ensures size.None? ==> r == (PyInt(p), DefaultSize)
    ensures size.Some? ==> 0 <= r.0 && r.0 + r.1 <= size.value
    ensures size.Some? && size.value >= DefaultSize ==> r.1 == DefaultSize
  {
    if size.None? then (PyInt(p), DefaultSize)
    else
      var s := size.value as real;
      var lo := MaxReal(0.0, MinReal(p, s - DefaultSize as real));
      (PyInt(lo), PyInt(MinReal(DefaultSize as real, s - lo)))
  }

  function AtPositionBounds(p: (real, real), sheet: Option<(nat, nat)>): (r: SC.Bounds)
    ensures sheet.None? ==> r.width == DefaultSize && r.height == DefaultSize
    ensures sheet.Some? ==> 0 <= r.x && r.x + r.width <= sheet.value.0 && 0 <= r.y && r.y + r.height <= sheet.value.1
  {
    var x := AtPositionAxis(p.0, SheetW(sheet));
    var y := AtPositionAxis(p.1, SheetH(sheet));
    SC.Bounds(x.0, y.0, x.1, y.1)
  }

  /** One axis of the old editor's `_finish_sprite_creation`, after the
      minimum-size step: the low end is kept so that the span fits when it
      can, and the span is cut at the sheet's edge. */
  function FinishAxis(lo: real, span: real, size: Option<nat>): (r: (int, int))
    requires span >= 0.0
    ensures size.None? ==> r == (PyInt(lo), PyInt(span))
    ensures size.Some? ==> 0 <= r.0 && r.0 + r.1 <= size.value
    ensures size.Some? && span <= size.value as real ==> r.1 == PyInt(span)
  {
    if size.None? then (PyInt(lo), PyInt(span))
    else
      var s := size.value as real;
      var l := MaxReal(0.0, MinReal(lo, s - span));
      (PyInt(l), PyInt(MinReal(span, s - l)))
  }

  /** `_finish_sprite_creation` of the old editor: a drag narrower or lower
      than 5 on either side is raised to at least 32 on both sides. */
  function FinishCreationBounds(start: (real, real), end: (real, real), sheet: Option<(nat, nat)>): (r: SC.Bounds)
    ensures (Abs(end.0 - start.0) < 5.0 || Abs(end.1 - start.1) < 5.0) && sheet.None? ==> r.width >= 32 && r.height >= 32
    ensures Abs(end.0 - start.0) >= 5.0 && Abs(end.1 - start.1) >= 5.0 && sheet.None? ==>
      r.width == PyInt(Abs(end.0 - start.0)) && r.height == PyInt(Abs(end.1 - start.1))
    ensures sheet.Some? ==> 0 <= r.x && r.x + r.width <= sheet.value.0 && 0 <= r.y && r.y + r.height <= sheet.value.1
  {
    var w0, h0 := Abs(end.0 - start.0), Abs(end.1 - start.1);
    var small := w0 < 5.0 || h0 < 5.0;
    var w := if small then MaxReal(w0, 32.0) else w0;
    var h := if small then MaxReal(h0, 32.0) else h0;
    var x := FinishAxis(MinReal(start.0, end.0), w, SheetW(sheet));
    var y := FinishAxis(MinReal(start.1, end.1), h, SheetH(sheet));
    SC.Bounds(x.0, y.0, x.1, y.1)
  }

  // ----- loading ---------------------------------------------------------------

  /** A loaded sprite record: `endpoint_x` defaults to 1.0 and `endpoint_y`
      to 0.5 when missing (not to the dataclass's 0.5 and 0.5). */
  function EndpointDefaults(d: FC.Record): (r: FC.Record)
    ensures r.Keys == d.Keys + {"endpoint_x", "endpoint_y"}
    ensures forall k :: k in d ==> r[k] == d[k]
    ensures "endpoint_x" !in d ==> r["endpoint_x"] == FC.Num(1.0)
    ensures "endpoint_y" !in d ==> r["endpoint_y"] == FC.Num(0.5)
  {
    var d1 := if "endpoint_x" !in d then d["endpoint_x" := FC.Num(1.0)] else d;
    if "endpoint_y" !in d1 then d1["endpoint_y" := FC.Num(0.5)] else d1
  }
}
