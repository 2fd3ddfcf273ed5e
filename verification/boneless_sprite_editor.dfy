/** The sprite-sheet editor of the "boneless" family,
    pyspine/boneless_sprite_editor.py. It is a `UniversalEditor` whose only
    object type is "sprites": the sprites live in `data_objects['sprites']`,
    the selection is the universal selection lists, creation and deletion go
    through `execute_command` records, and a finished move, resize, origin
    or endpoint drag is pushed as a "modify" record. Its sprites have a
    second marker, the endpoint, besides the origin.

    The universal part is `UniversalEditor.Editor`, held as `base`; this
    class adds the sprite editor's own interaction state. The insertion
    order of the sprites dictionary, which decides what a click hits, is a
    parameter of the hit tests. */
module BonelessSpriteEditor {
  import opened Types
  import SC = SpriteCommands
  import SR = SpriteRectRules
  import FC = FileCommon
  import UE = UniversalEditor

  const SpritesType := "sprites"

  /** A sprite's fields other than its name (the name is the `Value`'s). */
  datatype SpriteBody = SpriteBody(x: int, y: int, width: int, height: int,
                                   originX: real, originY: real, endpointX: real, endpointY: real)

  type Sprite = UE.Value<SpriteBody>

  function BoundsOf(b: SpriteBody): SC.Bounds { SC.Bounds(b.x, b.y, b.width, b.height) }

  /** The rectangle of each stored sprite; a `None` entry has none. */
  function Rects(m: map<string, Sprite>): (r: map<string, SC.Bounds>)
    ensures forall k :: k in r <==> k in m && m[k].Obj?
    ensures forall k :: k in r ==> r[k] == BoundsOf(m[k].payload)
  {
    map k | k in m && m[k].Obj? :: BoundsOf(m[k].payload)
  }

  /** `get_objects_at_position`: a "body" hit for every sprite containing
      the point, most recently inserted first; the first one is the sprite
      `get_sprite_at_position` finds. */
  function ObjectsAt(order: seq<string>, m: map<string, Sprite>, p: (real, real)): (r: seq<UE.Hit>)
    requires SR.Covers(order, Rects(m))
    ensures forall i :: 0 <= i < |r| ==> r[i].objectType == SpritesType && r[i].part == "body"
    ensures forall k :: UE.Hit(SpritesType, k, "body") in r <==> k in order && SR.Contains(Rects(m)[k], p)
    ensures r == [] <==> SR.TopmostAt(order, Rects(m), p).None?
    ensures r != [] ==> SR.TopmostAt(order, Rects(m), p) == Some(r[0].objectId)
  {
    var names := SR.AllAt(order, Rects(m), p);
    SR.TopmostIsFirstHit(order, Rects(m), p);
    var r := seq(|names|, i requires 0 <= i < |names| => UE.Hit(SpritesType, names[i], "body"));
    assert forall k :: UE.Hit(SpritesType, k, "body") in r <==> k in names by {
      forall k ensures UE.Hit(SpritesType, k, "body") in r <==> k in names {
        if k in names {
          var i :| 0 <= i < |names| && names[i] == k;
          assert r[i] == UE.Hit(SpritesType, k, "body");
        }
      }
    }
    r
  }

  /** What a drag remembers when it starts (`drag_start_data`). */
  datatype StartData =
    | NoStart
    | MoveStart(name: string, oldX: int, oldY: int)
    | OriginStart(name: string, oldOriginX: real, oldOriginY: real)
    | EndpointStart(name: string, oldEndpointX: real, oldEndpointY: real)
    | ResizeStart(name: string, oldBounds: SC.Bounds)

  /** The sprite before the drag, rebuilt from the sprite now and the start
      data: only the fields that kind of drag changes are taken from the
      start. */
  function Before(b: SpriteBody, start: StartData): (r: SpriteBody)
    requires !start.NoStart?
    ensures start.MoveStart? ==> r == b.(x := start.oldX, y := start.oldY)
    ensures start.OriginStart? ==> r == b.(originX := start.oldOriginX, originY := start.oldOriginY)
    ensures start.EndpointStart? ==> r == b.(endpointX := start.oldEndpointX, endpointY := start.oldEndpointY)
    ensures start.ResizeStart? ==>
      BoundsOf(r) == start.oldBounds && r.(x := b.x, y := b.y, width := b.width, height := b.height) == b
  {
    match start
    case MoveStart(_, x, y) => b.(x := x, y := y)
    case OriginStart(_, ox, oy) => b.(originX := ox, originY := oy)
    case EndpointStart(_, ex, ey) => b.(endpointX := ex, endpointY := ey)
    case ResizeStart(_, o) => b.(x := o.x, y := o.y, width := o.width, height := o.height)
  }

  /** `create_operation_command`: a "modify" record of the sprite named in
      the start data, from the rebuilt old sprite to the current one; none
      when that name holds `None`, and none when it is gone, where the
      source raises `KeyError`. Whether anything changed is
      not checked. */
  function OperationRecord(m: map<string, Sprite>, start: StartData): (r: Option<UE.Record<SpriteBody>>)
    requires !start.NoStart?
    ensures r.Some? <==> start.name in m && m[start.name].Obj?
    ensures r.Some? ==>
      var v := m[start.name];
      r.value == UE.Edit(UE.Modify, SpritesType, start.name, v.(payload := Before(v.payload, start)), v)
  {
    if start.name in m && m[start.name].Obj? then
      var v := m[start.name];
      Some(UE.Edit(UE.Modify, SpritesType, start.name, v.(payload := Before(v.payload, start)), v))
    else None
  }

  /** Undoing the operation's record puts back exactly the fields the drag
      changed, from the start data; redoing it after that gives the sprite
      as it was when the drag ended. */
  lemma OperationUndoRedo(d: UE.Store<SpriteBody>, sel: UE.Selection, start: StartData)
    requires SpritesType in d && UE.RenameType !in d && !start.NoStart?
    requires OperationRecord(d[SpritesType], start).Some?
    ensures var r := OperationRecord(d[SpritesType], start).value;
      var n := start.name; var v := d[SpritesType][n];
      var u := UE.UndoData(d, sel, r);
      && u.1 == sel
      && u.0[SpritesType] == d[SpritesType][n := v.(payload := Before(v.payload, start))]
      && UE.ExecuteData(u.0, r) == Some(d)
  {
    var r := OperationRecord(d[SpritesType], start).value;
    var n := start.name;
    var m := d[SpritesType];
    var u := UE.UndoData(d, sel, r);
    assert u.0 == d[SpritesType := m[n := r.oldData]];
    var m2 := m[n := r.oldData][n := r.newData];
    assert m2 == m;
    assert UE.ExecuteData(u.0, r) == Some(u.0[SpritesType := m2]);
    assert u.0[SpritesType := m2] == d;
  }

  /** Undoing the "create" record of a new sprite removes it again. */
  lemma CreateRecordUndo(d: UE.Store<SpriteBody>, sel: UE.Selection, name: string, v: Sprite)
    requires SpritesType in d && name !in d[SpritesType]
    ensures UE.UndoData(d[SpritesType := d[SpritesType][name := v]], sel, UE.Edit(UE.Create, SpritesType, name, UE.NoneValue, v)).0 == d
  {
    assert d[SpritesType][name := v] - {name} == d[SpritesType];
  }

  /** Undoing the "delete" record of a stored sprite puts it back. */
  lemma DeleteRecordUndo(d: UE.Store<SpriteBody>, sel: UE.Selection, name: string)
    requires SpritesType in d && name in d[SpritesType]
    ensures var v := d[SpritesType][name];
      UE.UndoData(d[SpritesType := d[SpritesType] - {name}], sel, UE.Edit(UE.Delete, SpritesType, name, v, UE.NoneValue)).0 == d
  {
    assert (d[SpritesType] - {name})[name := d[SpritesType][name]] == d[SpritesType];
  }

  /** The sprite `create_sprite_with_bounds` makes: origin at the middle of
      the left side, endpoint at the middle of the right side. */
  function NewSprite(name: string, b: SC.Bounds): (v: Sprite)
    ensures v.Obj? && v.name == Some(name) && BoundsOf(v.payload) == b
    ensures v.payload.originX == 0.0 && v.payload.originY == 0.5
    ensures v.payload.endpointX == 1.0 && v.payload.endpointY == 0.5
  {
    UE.Obj(Some(name), SpriteBody(b.x, b.y, b.width, b.height, 0.0, 0.5, 1.0, 0.5))
  }

  // ----- saving and loading ------------------------------------------------------

  const SpriteFields: set<string> := {"name", "x", "y", "width", "height", "origin_x", "origin_y", "endpoint_x", "endpoint_y"}

  /** One entry of `serialize_data_objects`. */
  function SaveSprite(name: string, b: SpriteBody): (r: FC.Record)
    ensures r.Keys == SpriteFields
  {
    map["name" := FC.Str(name), "x" := FC.Int(b.x), "y" := FC.Int(b.y),
        "width" := FC.Int(b.width), "height" := FC.Int(b.height),
        "origin_x" := FC.Num(b.originX), "origin_y" := FC.Num(b.originY),
        "endpoint_x" := FC.Num(b.endpointX), "endpoint_y" := FC.Num(b.endpointY)]
  }

  function IntField(r: FC.Record, k: string): Option<int> {
    if k in r && r[k].Int? then Some(r[k].i) else None
  }

  /** A float field, or the dataclass default when missing. */
  function RealField(r: FC.Record, k: string, default: real): Option<real> {
    if k !in r then Some(default)
    else if r[k].Num? then Some(r[k].r)
    else if r[k].Int? then Some(r[k].i as real)
    else None
  }

  /** One entry of `deserialize_data_objects`: the endpoint defaults are
      filled in, then `SpriteRect(**sprite_data)` is built, which fails on
      an unknown field or a missing required one. A value of the wrong kind
      gives `None` as well: the dataclass stores it unchecked, but the
      record here has typed fields. */
  function LoadSprite(r: FC.Record): (s: Option<Sprite>)
    ensures s.Some? ==> r.Keys <= SpriteFields && "name" in r && r["name"].Str? && s.value.Obj? && s.value.name == Some(r["name"].s)
    ensures s.Some? && "endpoint_x" !in r ==> s.value.payload.endpointX == 1.0
    ensures s.Some? && "endpoint_y" !in r ==> s.value.payload.endpointY == 0.5
    ensures s.Some? && "origin_x" !in r ==> s.value.payload.originX == 0.5
    ensures s.Some? && "origin_y" !in r ==> s.value.payload.originY == 0.5
  {
    var d := SR.EndpointDefaults(r);
    if !(d.Keys <= SpriteFields) || "name" !in d || !d["name"].Str? then None
    else
      var x, y, w, h := IntField(d, "x"), IntField(d, "y"), IntField(d, "width"), IntField(d, "height");
      var ox, oy := RealField(d, "origin_x", 0.5), RealField(d, "origin_y", 0.5);
      var ex, ey := RealField(d, "endpoint_x", 0.5), RealField(d, "endpoint_y", 0.5);
      if x.None? || y.None? || w.None? || h.None? || ox.None? || oy.None? || ex.None? || ey.None? then None
      else Some(UE.Obj(Some(d["name"].s), SpriteBody(x.value, y.value, w.value, h.value, ox.value, oy.value, ex.value, ey.value)))
  }

  /** A saved sprite loads back as the same sprite. */
  lemma SaveLoadRoundTrip(name: string, b: SpriteBody)
    ensures LoadSprite(SaveSprite(name, b)) == Some(UE.Obj(Some(name), b))
  {
    var r := SaveSprite(name, b);
    assert SR.EndpointDefaults(r) == r;
  }

  /** `deserialize_data_objects` on the "sprites" entry: one bad sprite
      fails the whole load. */
  function LoadSprites(data: map<string, FC.Record>): (r: Option<map<string, Sprite>>)
    ensures r.Some? <==> forall k :: k in data ==> LoadSprite(data[k]).Some?
    ensures r.Some? ==> r.value.Keys == data.Keys && forall k :: k in data ==> r.value[k] == LoadSprite(data[k]).value
  {
    if forall k :: k in data ==> LoadSprite(data[k]).Some? then
      Some(map k | k in data :: LoadSprite(data[k]).value)
    else None
  }

  class Editor {
    const base: UE.Editor<SpriteBody>
    var sheetSize: Option<(nat, nat)>
    var creating: bool
    var startPos: Option<(real, real)>
    var tempRect: Option<SC.Bounds>
    var draggingSprite: bool
    var draggingOrigin: bool
    var draggingEndpoint: bool
    var resizing: bool
    var resizeHandle: ResizeHandle
    var dragOffset: (real, real)
    var operationInProgress: bool
    var dragStart: StartData

    ghost predicate Valid()
      reads this, base
    {
      base.Valid() && SpritesType in base.dataObjects
    }

    constructor (sheetSize: Option<(nat, nat)>)
      ensures Valid() && fresh(base)
      ensures base.dataObjects == map[SpritesType := map[]] && base.history == [] && base.redoStack == []
      ensures this.sheetSize == sheetSize && !creating && !operationInProgress && dragStart == NoStart
    {
      base := new UE.Editor({SpritesType});
      this.sheetSize := sheetSize;
      creating, startPos, tempRect := false, None, None;
      draggingSprite, draggingOrigin, draggingEndpoint, resizing := false, false, false, false;
      resizeHandle := NoHandle;
      dragOffset := (0.0, 0.0);
      operationInProgress, dragStart := false, NoStart;
      new;
      assert base.dataObjects == map[SpritesType := map[]];
    }

    /** A drag handler's assignment to fields of a stored sprite. */
    method Store(n: string, b: SpriteBody)
      requires Valid() && n in base.dataObjects[SpritesType] && base.dataObjects[SpritesType][n].Obj?
      modifies base`dataObjects
      ensures Valid()
      ensures base.dataObjects == old(base.dataObjects)[SpritesType := old(base.dataObjects)[SpritesType][n := old(base.dataObjects)[SpritesType][n].(payload := b)]]
    {
      var v := base.dataObjects[SpritesType][n];
      base.dataObjects := base.dataObjects[SpritesType := base.dataObjects[SpritesType][n := v.(payload := b)]];
    }

    /** The first selected sprite when it is a stored, non-`None` sprite
        (`get_first_selected('sprites')`, then `data_objects['sprites'][...]`). */
    function Current(): (n: Option<string>)
      reads this, base
      requires Valid()
      ensures n.Some? ==> (IsSet(n) && n == base.GetFirstSelected(SpritesType)
        && n.value in base.dataObjects[SpritesType] && base.dataObjects[SpritesType][n.value].Obj?)
    {
      var sel := base.GetFirstSelected(SpritesType);
      if IsSet(sel) && sel.value in base.dataObjects[SpritesType] && base.dataObjects[SpritesType][sel.value].Obj? then sel else None
    }

    /** `rename_object` for sprites: false for another type or an unknown
        name; otherwise the sprite moves to the new key (replacing any
        sprite stored there), takes the new name, and its selection entry
        follows. Unlike the universal version nothing is recorded. */
    method RenameObject(t: string, oldName: string, newName: string) returns (ok: bool)
      requires Valid()
      modifies base`dataObjects, base`selected
      ensures Valid()
      ensures ok <==> t == SpritesType && oldName in old(base.dataObjects)[SpritesType]
      ensures !ok ==> base.dataObjects == old(base.dataObjects) && base.selected == old(base.selected)
      ensures ok ==>
        && base.dataObjects == UE.RenameData(old(base.dataObjects), t, oldName, newName)
        && base.selected == UE.RenameSelected(old(base.selected), t, oldName, newName)
      ensures base.history == old(base.history) && base.redoStack == old(base.redoStack)
    {
      if t != SpritesType || oldName !in base.dataObjects[SpritesType] {
        return false;
      }
      base.dataObjects := UE.RenameData(base.dataObjects, t, oldName, newName);
      base.selected := UE.RenameSelected(base.selected, t, oldName, newName);
      ok := true;
    }

    /** `update_sprite_drag`: the selected sprite's corner follows the
        mouse minus the grab offset, kept on the sheet. */
    method UpdateSpriteDrag(p: (real, real))
      requires Valid()
      modifies base`dataObjects
      ensures Valid()
      ensures Current() == old(Current())
      ensures old(Current()).None? ==> base.dataObjects == old(base.dataObjects)
      ensures old(Current()).Some? ==>
        var n := old(Current()).value; var b := old(base.dataObjects)[SpritesType][n].payload;
        var b2 := base.dataObjects[SpritesType][n].payload;
        && base.dataObjects == old(base.dataObjects)[SpritesType := old(base.dataObjects)[SpritesType][n := old(base.dataObjects)[SpritesType][n].(payload := b2)]]
        && b2 == b.(x := SR.DragAxis(p.0, dragOffset.0, b.width, SR.SheetW(sheetSize)),
                    y := SR.DragAxis(p.1, dragOffset.1, b.height, SR.SheetH(sheetSize)))
        && (sheetSize.Some? && b.width <= sheetSize.value.0 ==> 0 <= b2.x <= sheetSize.value.0 - b.width)
        && (sheetSize.Some? && b.height <= sheetSize.value.1 ==> 0 <= b2.y <= sheetSize.value.1 - b.height)
    {
      var n := Current();
      if n.None? {
        return;
      }
      var b := base.dataObjects[SpritesType][n.value].payload;
      Store(n.value, b.(x := SR.DragAxis(p.0, dragOffset.0, b.width, SR.SheetW(sheetSize)),
                        y := SR.DragAxis(p.1, dragOffset.1, b.height, SR.SheetH(sheetSize))));
    }

    /** `update_origin_drag`: the origin is the mouse's fraction of the way
        across the sprite, in [0, 1] (0.5 on an axis of no extent). */
    method UpdateOriginDrag(p: (real, real))
      requires Valid()
      modifies base`dataObjects
      ensures Valid()
      ensures Current() == old(Current())
      ensures old(Current()).None? ==> base.dataObjects == old(base.dataObjects)
      ensures old(Current()).Some? ==>
        var n := old(Current()).value; var b := old(base.dataObjects)[SpritesType][n].payload;
        var b2 := base.dataObjects[SpritesType][n].payload;
        && base.dataObjects == old(base.dataObjects)[SpritesType := old(base.dataObjects)[SpritesType][n := old(base.dataObjects)[SpritesType][n].(payload := b2)]]
        && b2 == b.(originX := SR.MarkerAxis(p.0, b.x, b.width), originY := SR.MarkerAxis(p.1, b.y, b.height))
        && 0.0 <= b2.originX <= 1.0 && 0.0 <= b2.originY <= 1.0
    {
      var n := Current();
      if n.None? {
        return;
      }
      var b := base.dataObjects[SpritesType][n.value].payload;
      Store(n.value, b.(originX := SR.MarkerAxis(p.0, b.x, b.width), originY := SR.MarkerAxis(p.1, b.y, b.height)));
    }

    /** `update_endpoint_drag`: as the origin drag, for the endpoint. */
    method UpdateEndpointDrag(p: (real, real))
      requires Valid()
      modifies base`dataObjects
      ensures Valid()
      ensures Current() == old(Current())
      ensures old(Current()).None? ==> base.dataObjects == old(base.dataObjects)
      ensures old(Current()).Some? ==>
        var n := old(Current()).value; var b := old(base.dataObjects)[SpritesType][n].payload;
        var b2 := base.dataObjects[SpritesType][n].payload;
        && base.dataObjects == old(base.dataObjects)[SpritesType := old(base.dataObjects)[SpritesType][n := old(base.dataObjects)[SpritesType][n].(payload := b2)]]
        && b2 == b.(endpointX := SR.MarkerAxis(p.0, b.x, b.width), endpointY := SR.MarkerAxis(p.1, b.y, b.height))
        && 0.0 <= b2.endpointX <= 1.0 && 0.0 <= b2.endpointY <= 1.0
    {
      var n := Current();
      if n.None? {
        return;
      }
      var b := base.dataObjects[SpritesType][n.value].payload;
      Store(n.value, b.(endpointX := SR.MarkerAxis(p.0, b.x, b.width), endpointY := SR.MarkerAxis(p.1, b.y, b.height)));
    }

    /** `update_sprite_resize`: the bounds computed from the bounds at the
        start of the resize, at least 5 wide and high. */
    method UpdateSpriteResize(p: (real, real))
      requires Valid()
      modifies base`dataObjects
      ensures Valid()
      ensures Current() == old(Current())
      ensures old(Current()).None? || !dragStart.ResizeStart? ==> base.dataObjects == old(base.dataObjects)
      ensures old(Current()).Some? && dragStart.ResizeStart? ==>
        var n := old(Current()).value; var b := old(base.dataObjects)[SpritesType][n].payload;
        var b2 := base.dataObjects[SpritesType][n].payload;
        var r := SR.BonelessResizeBounds(dragStart.oldBounds, resizeHandle, p, sheetSize);
        && base.dataObjects == old(base.dataObjects)[SpritesType := old(base.dataObjects)[SpritesType][n := old(base.dataObjects)[SpritesType][n].(payload := b2)]]
        && b2 == b.(x := r.x, y := r.y, width := r.width, height := r.height)
        && b2.width >= 5 && b2.height >= 5
    {
      var n := Current();
      if n.None? || !dragStart.ResizeStart? {
        return;
      }
      var b := base.dataObjects[SpritesType][n.value].payload;
      var r := SR.BonelessResizeBounds(dragStart.oldBounds, resizeHandle, p, sheetSize);
      Store(n.value, b.(x := r.x, y := r.y, width := r.width, height := r.height));
    }

    /** `update_sprite_creation`: with a sheet loaded, the pending
        rectangle follows the mouse and stays on the sheet. */
    method UpdateSpriteCreation(p: (real, real))
      modifies this`tempRect
      ensures startPos.Some? && sheetSize.Some? ==> tempRect == Some(SR.CreationRect(startPos.value, p, sheetSize.value))
      ensures !(startPos.Some? && sheetSize.Some?) ==> tempRect == old(tempRect)
    {
      if startPos.Some? && sheetSize.Some? {
        tempRect := Some(SR.CreationRect(startPos.value, p, sheetSize.value));
      }
    }

    /** `handle_mouse_drag` inside the viewport: the first active mode
        (creation, move, origin, endpoint, resize) gets the point. */
    method MouseDrag(p: (real, real))
      requires Valid()
      modifies this`tempRect, base`dataObjects
      ensures Valid()
      ensures creating ==> base.dataObjects == old(base.dataObjects)
      ensures !creating ==> tempRect == old(tempRect)
      ensures !(creating || draggingSprite || draggingOrigin || draggingEndpoint || resizing) ==> base.dataObjects == old(base.dataObjects)
      ensures Current() == old(Current())
    {
      if creating {
        UpdateSpriteCreation(p);
      } else if draggingSprite {
        UpdateSpriteDrag(p);
      } else if draggingOrigin {
        UpdateOriginDrag(p);
      } else if draggingEndpoint {
        UpdateEndpointDrag(p);
      } else if resizing {
        UpdateSpriteResize(p);
      }
    }

    /** `start_sprite_drag`. */
    method StartSpriteDrag(n: string, p: (real, real))
      requires Valid() && n in base.dataObjects[SpritesType] && base.dataObjects[SpritesType][n].Obj?
      modifies this`dragOffset, this`draggingSprite, this`operationInProgress, this`dragStart
      ensures var b := base.dataObjects[SpritesType][n].payload;
        && dragOffset == (p.0 - b.x as real, p.1 - b.y as real)
        && draggingSprite && operationInProgress && dragStart == MoveStart(n, b.x, b.y)
    {
      var b := base.dataObjects[SpritesType][n].payload;
      dragOffset := (p.0 - b.x as real, p.1 - b.y as real);
      draggingSprite, operationInProgress := true, true;
      dragStart := MoveStart(n, b.x, b.y);
    }

    /** `start_origin_drag` and `start_endpoint_drag`: the sprite alone is
        selected and its marker's values are remembered. */
    method StartMarkerDrag(n: string, endpoint: bool)
      requires Valid() && n in base.dataObjects[SpritesType] && base.dataObjects[SpritesType][n].Obj?
      modifies this`draggingOrigin, this`draggingEndpoint, this`operationInProgress, this`dragStart, base`selected
      ensures Valid()
      ensures base.selected == map[SpritesType := [n]] && operationInProgress
      ensures var b := base.dataObjects[SpritesType][n].payload;
        && (endpoint ==> draggingEndpoint && draggingOrigin == old(draggingOrigin) && dragStart == EndpointStart(n, b.endpointX, b.endpointY))
        && (!endpoint ==> draggingOrigin && draggingEndpoint == old(draggingEndpoint) && dragStart == OriginStart(n, b.originX, b.originY))
    {
      base.SelectObject(SpritesType, n, false);
      var b := base.dataObjects[SpritesType][n].payload;
      operationInProgress := true;
      if endpoint {
        draggingEndpoint := true;
        dragStart := EndpointStart(n, b.endpointX, b.endpointY);
      } else {
        draggingOrigin := true;
        dragStart := OriginStart(n, b.originX, b.originY);
      }
    }

    /** `start_resize_operation` with the handle found. */
    method StartResizeOperation(h: ResizeHandle)
      requires Valid()
      modifies this`resizeHandle, this`resizing, this`operationInProgress, this`dragStart
      ensures Current().None? ==> resizing == old(resizing) && dragStart == old(dragStart)
      ensures Current().Some? ==>
        && resizeHandle == h && resizing && operationInProgress
        && dragStart == ResizeStart(Current().value, BoundsOf(base.dataObjects[SpritesType][Current().value].payload))
    {
      var n := Current();
      if n.None? {
        return;
      }
      resizeHandle, resizing, operationInProgress := h, true, true;
      dragStart := ResizeStart(n.value, BoundsOf(base.dataObjects[SpritesType][n.value].payload));
    }

    /** What `ClickSprites` leaves behind, against the state before the
        click: on the topmost sprite under the point its endpoint marker,
        then its origin marker, starts that marker's drag with the sprite
        alone selected; any other click is as `Selected` states. */
    twostate predicate SpritesClicked(order: seq<string>, p: (real, real), screenPos: (int, int), markerRadius: int)
      reads this, base
      requires Valid() && SR.Covers(order, Rects(base.dataObjects[SpritesType]))
    {
      var d := base.dataObjects[SpritesType];
      var hit := SR.TopmostAt(order, Rects(d), p);
      if !IsSet(hit) then Selected(order, p, screenPos)
      else
        var b := d[hit.value].payload;
        if SR.MarkerHit(BoundsOf(b), b.endpointX, b.endpointY, p, markerRadius) then
          && base.selected == map[SpritesType := [hit.value]] && creating == old(creating)
          && draggingEndpoint && operationInProgress && dragStart == EndpointStart(hit.value, b.endpointX, b.endpointY)
        else if SR.MarkerHit(BoundsOf(b), b.originX, b.originY, p, markerRadius) then
          && base.selected == map[SpritesType := [hit.value]] && creating == old(creating)
          && draggingOrigin && operationInProgress && dragStart == OriginStart(hit.value, b.originX, b.originY)
        else Selected(order, p, screenPos)
    }

    /** A click away from the markers: on a sprite it selects with cycling
        among the sprites under the point and, when the topmost one is then
        the first selected, starts a move; on no sprite it starts a
        creation at the point with nothing selected. */
    twostate predicate Selected(order: seq<string>, p: (real, real), screenPos: (int, int))
      reads this, base
      requires Valid() && SR.Covers(order, Rects(base.dataObjects[SpritesType]))
    {
      var d := base.dataObjects[SpritesType];
      var hit := SR.TopmostAt(order, Rects(d), p);
      base.lastClickPos == Some(screenPos) &&
      if !IsSet(hit) then
        && creating && startPos == Some(p) && base.selected == map[]
        && dragStart == old(dragStart) && operationInProgress == old(operationInProgress)
      else
        var b := d[hit.value].payload;
        && creating == old(creating)
        && base.objectsAtCursor == ObjectsAt(order, d, p) && 0 <= base.cycleIndex < |base.objectsAtCursor|
        && base.selected == map[SpritesType := [base.objectsAtCursor[base.cycleIndex].objectId]]
        && (base.GetFirstSelected(SpritesType) == hit ==>
              && draggingSprite && operationInProgress && dragStart == MoveStart(hit.value, b.x, b.y)
              && dragOffset == (p.0 - b.x as real, p.1 - b.y as real))
        && (base.GetFirstSelected(SpritesType) != hit ==>
              dragStart == old(dragStart) && operationInProgress == old(operationInProgress) && draggingSprite == old(draggingSprite))
    }

    /** `handle_viewport_click`: ignored while a creation is pending; a
        handle of the selected sprite (strict test) starts a resize;
        otherwise the click goes to `ClickSprites`. */
    method ViewportClick(order: seq<string>, p: (real, real), screenPos: (int, int), near: bool,
                         handleSize: real, markerRadius: int)
      requires Valid() && SR.Covers(order, Rects(base.dataObjects[SpritesType]))
      modifies this`resizeHandle, this`resizing, this`operationInProgress, this`dragStart,
               this`draggingOrigin, this`draggingEndpoint, this`draggingSprite, this`dragOffset,
               this`creating, this`startPos
      modifies base`selected, base`objectsAtCursor, base`cycleIndex, base`lastClickPos
      ensures Valid()
      ensures base.dataObjects == old(base.dataObjects) && base.history == old(base.history) && base.redoStack == old(base.redoStack)
      ensures old(creating) ==>
        && base.selected == old(base.selected) && creating && resizing == old(resizing)
        && dragStart == old(dragStart) && operationInProgress == old(operationInProgress)
      ensures var sel := old(Current());
        var h := if sel.Some? then SR.HandleAt(BoundsOf(base.dataObjects[SpritesType][sel.value].payload), p, handleSize, false) else NoHandle;
        && (!old(creating) && h != NoHandle ==>
              resizing && resizeHandle == h && operationInProgress && base.selected == old(base.selected)
              && dragStart == ResizeStart(sel.value, BoundsOf(base.dataObjects[SpritesType][sel.value].payload)))
        && (!old(creating) && h == NoHandle ==> SpritesClicked(order, p, screenPos, markerRadius))
    {
      if creating {
        return;
      }
      var sel := Current();
      if sel.Some? {
        var h := SR.HandleAt(BoundsOf(base.dataObjects[SpritesType][sel.value].payload), p, handleSize, false);
        if h != NoHandle {
          StartResizeOperation(h);
          return;
        }
      }
      ClickSprites(order, p, screenPos, near, markerRadius);
    }

    /** The rest of `handle_viewport_click`, as `SpritesClicked` states it
        (`near` is the same-area test of the selection cycling). */
    method ClickSprites(order: seq<string>, p: (real, real), screenPos: (int, int), near: bool, markerRadius: int)
      requires Valid() && SR.Covers(order, Rects(base.dataObjects[SpritesType]))
      modifies this`operationInProgress, this`dragStart, this`draggingOrigin, this`draggingEndpoint,
               this`draggingSprite, this`dragOffset, this`creating, this`startPos
      modifies base`selected, base`objectsAtCursor, base`cycleIndex, base`lastClickPos
      ensures Valid()
      ensures base.dataObjects == old(base.dataObjects) && base.history == old(base.history) && base.redoStack == old(base.redoStack)
      ensures SpritesClicked(order, p, screenPos, markerRadius)
    {
      var d := base.dataObjects[SpritesType];
      var hit := SR.TopmostAt(order, Rects(d), p);
      if IsSet(hit) {
        var b := d[hit.value].payload;
        if SR.MarkerHit(BoundsOf(b), b.endpointX, b.endpointY, p, markerRadius) {
          StartMarkerDrag(hit.value, true);
          return;
        }
        if SR.MarkerHit(BoundsOf(b), b.originX, b.originY, p, markerRadius) {
          StartMarkerDrag(hit.value, false);
          return;
        }
      }
      SelectAt(order, p, screenPos, near);
    }

    /** Selection with cycling, then a move or a creation, as `Selected`
        states. */
    method SelectAt(order: seq<string>, p: (real, real), screenPos: (int, int), near: bool)
      requires Valid() && SR.Covers(order, Rects(base.dataObjects[SpritesType]))
      modifies this`operationInProgress, this`dragStart, this`draggingSprite, this`dragOffset, this`creating, this`startPos
      modifies base`selected, base`objectsAtCursor, base`cycleIndex, base`lastClickPos
      ensures Valid()
      ensures base.dataObjects == old(base.dataObjects) && base.history == old(base.history) && base.redoStack == old(base.redoStack)
      ensures Selected(order, p, screenPos)
    {
      var d := base.dataObjects[SpritesType];
      var hit := SR.TopmostAt(order, Rects(d), p);
      var hits := ObjectsAt(order, d, p);
      base.HandleSelectionAtPosition(hits, near, screenPos);
      if IsSet(hit) {
        assert hits != [] && hits[base.cycleIndex].objectType == SpritesType;
        MoveIfFirst(hit.value, p);
      } else {
        StartSpriteCreation(p);
      }
    }

    /** `start_sprite_creation`: the creation starts at the point with
        nothing selected. */
    method StartSpriteCreation(p: (real, real))
      requires Valid()
      modifies this`creating, this`startPos, base`selected
      ensures Valid()
      ensures creating && startPos == Some(p) && base.selected == map[]
    {
      creating := true;
      startPos := Some(p);
      base.ClearSelection();
    }

    /** The tail of the click: a move of the sprite starts when it is the
        first selected one. */
    method MoveIfFirst(n: string, p: (real, real))
      requires Valid() && n in base.dataObjects[SpritesType] && base.dataObjects[SpritesType][n].Obj?
      modifies this`dragOffset, this`draggingSprite, this`operationInProgress, this`dragStart
      ensures var b := base.dataObjects[SpritesType][n].payload;
        base.GetFirstSelected(SpritesType) == Some(n) ==>
          && draggingSprite && operationInProgress && dragStart == MoveStart(n, b.x, b.y)
          && dragOffset == (p.0 - b.x as real, p.1 - b.y as real)
      ensures base.GetFirstSelected(SpritesType) != Some(n) ==>
        dragStart == old(dragStart) && operationInProgress == old(operationInProgress) && draggingSprite == old(draggingSprite)
    {
      var now := base.GetFirstSelected(SpritesType);
      if now == Some(n) {
        StartSpriteDrag(n, p);
      }
    }

    /** `create_sprite_with_bounds`: a "create" record for the next free
        "sprite_N" name, executed, then that sprite alone is selected. */
    method CreateSpriteWithBounds(b: SC.Bounds) returns (name: string)
      requires Valid()
      modifies base`dataObjects, base`history, base`redoStack, base`selected
      ensures Valid()
      ensures name !in old(base.dataObjects)[SpritesType]
      ensures base.dataObjects == old(base.dataObjects)[SpritesType := old(base.dataObjects)[SpritesType][name := NewSprite(name, b)]]
      ensures base.history == UE.UndoRedo.Trim(old(base.history) + [UE.Edit(UE.Create, SpritesType, name, UE.NoneValue, NewSprite(name, b))], UE.MaxHistory)
      ensures base.history != [] && base.history[|base.history| - 1] == UE.Edit(UE.Create, SpritesType, name, UE.NoneValue, NewSprite(name, b))
      ensures base.redoStack == [] && base.selected == map[SpritesType := [name]]
      ensures UE.UndoData(base.dataObjects, base.selected, base.history[|base.history| - 1]).0 == old(base.dataObjects)
    {
      name := base.GetNextObjectName(SpritesType, Some("sprite_"));
      var d0 := base.dataObjects;
      ExecuteCreate(name, NewSprite(name, b));
      base.SelectObject(SpritesType, name, false);
      CreateRecordUndo(d0, base.selected, name, NewSprite(name, b));
    }

    /** The create command of `create_sprite_with_bounds`, run through the
        core. */
    method ExecuteCreate(name: string, v: Sprite)
      requires Valid()
      modifies base`dataObjects, base`history, base`redoStack
      ensures Valid()
      ensures base.dataObjects == old(base.dataObjects)[SpritesType := old(base.dataObjects)[SpritesType][name := v]]
      ensures base.history == UE.UndoRedo.Trim(old(base.history) + [UE.Edit(UE.Create, SpritesType, name, UE.NoneValue, v)], UE.MaxHistory)
      ensures base.history != [] && base.history[|base.history| - 1] == UE.Edit(UE.Create, SpritesType, name, UE.NoneValue, v)
      ensures base.redoStack == []
    {
      var ok := base.ExecuteCommand(UE.Edit(UE.Create, SpritesType, name, UE.NoneValue, v));
    }

    /** `create_sprite_at_position`: a 50 by 50 sprite at the point, kept
        on the sheet. */
    method CreateSpriteAtPosition(p: (real, real)) returns (name: string)
      requires Valid()
      modifies base`dataObjects, base`history, base`redoStack, base`selected
      ensures Valid()
      ensures name !in old(base.dataObjects)[SpritesType]
      ensures base.dataObjects == old(base.dataObjects)[SpritesType := old(base.dataObjects)[SpritesType][name := NewSprite(name, SR.AtPositionBounds(p, sheetSize))]]
      ensures sheetSize.Some? ==>
        var r := SR.AtPositionBounds(p, sheetSize);
        0 <= r.x && r.x + r.width <= sheetSize.value.0 && 0 <= r.y && r.y + r.height <= sheetSize.value.1
    {
      name := CreateSpriteWithBounds(SR.AtPositionBounds(p, sheetSize));
    }

    /** The state after `create_sprite_with_bounds` made sprite `name`
        from the given data and history: the sprite is stored under its
        fresh name, its "create" record is the newest in the history and
        the redo stack is empty. */
    ghost predicate Created(d: UE.Store<SpriteBody>, h: seq<UE.Record<SpriteBody>>, name: string, b: SC.Bounds)
      reads base
      requires SpritesType in d
    {
      && name !in d[SpritesType]
      && base.dataObjects == d[SpritesType := d[SpritesType][name := NewSprite(name, b)]]
      && base.history == UE.UndoRedo.Trim(h + [UE.Edit(UE.Create, SpritesType, name, UE.NoneValue, NewSprite(name, b))], UE.MaxHistory)
      && base.redoStack == []
    }

    /** `complete_sprite_creation`: the pending rectangle becomes a sprite
        only when more than 5 wide and high. */
    method CompleteSpriteCreation()
      requires Valid()
      modifies this`tempRect, this`startPos, base`dataObjects, base`history, base`redoStack, base`selected
      ensures Valid()
      ensures old(tempRect).None? ==> base.dataObjects == old(base.dataObjects) && tempRect == None && startPos == old(startPos)
      ensures old(tempRect).Some? ==> tempRect == None && startPos == None
      ensures !(old(tempRect).Some? && SR.BigEnough(old(tempRect).value)) ==>
        base.dataObjects == old(base.dataObjects) && base.history == old(base.history) && base.redoStack == old(base.redoStack)
      ensures old(tempRect).Some? && SR.BigEnough(old(tempRect).value) ==>
        exists name :: Created(old(base.dataObjects), old(base.history), name, old(tempRect).value)
    {
      if tempRect.None? {
        return;
      }
      var b := tempRect.value;
      tempRect, startPos := None, None;
      if SR.BigEnough(b) {
        ghost var d, h := base.dataObjects, base.history;
        var name := CreateSpriteWithBounds(b);
        assert Created(d, h, name, b);
      }
    }

    /** `create_operation_command` as `complete_current_operation` calls
        it: the record is appended to the history directly (not executed),
        the redo stack is emptied and the oldest record dropped beyond 50. */
    method CompleteCurrentOperation()
      requires Valid()
      modifies this`operationInProgress, this`dragStart, base`history, base`redoStack
      ensures Valid()
      ensures !(old(operationInProgress) && !old(dragStart).NoStart?) ==>
        base.history == old(base.history) && base.redoStack == old(base.redoStack) && dragStart == old(dragStart)
      ensures old(operationInProgress) && !old(dragStart).NoStart? ==>
        var r := OperationRecord(base.dataObjects[SpritesType], old(dragStart));
        && !operationInProgress && dragStart == NoStart
        && (r.None? ==> base.history == old(base.history) && base.redoStack == old(base.redoStack))
        && (r.Some? ==> base.history == UE.UndoRedo.Trim(old(base.history) + [r.value], UE.MaxHistory) && base.redoStack == [])
    {
      if !operationInProgress || dragStart.NoStart? {
        return;
      }
      var r := OperationRecord(base.dataObjects[SpritesType], dragStart);
      if r.Some? {
        base.history := base.history + [r.value];
        base.redoStack := [];
        if |base.history| > UE.MaxHistory {
          base.history := base.history[1..];
        }
      }
      operationInProgress, dragStart := false, NoStart;
    }

    /** `handle_mouse_up` (left button): the operation in progress is
        recorded (`complete_current_operation`), a pending creation is
        completed after it, and every drag mode ends. */
    method MouseUp()
      requires Valid()
      modifies this`operationInProgress, this`dragStart, this`tempRect, this`startPos, this`creating,
        this`draggingSprite, this`draggingOrigin, this`draggingEndpoint, this`resizing, this`resizeHandle
      modifies base`dataObjects, base`history, base`redoStack, base`selected
      ensures Valid()
      ensures !creating && !draggingSprite && !draggingOrigin && !draggingEndpoint && !resizing && resizeHandle == NoHandle
      ensures old(operationInProgress) && !old(dragStart).NoStart? ==> !operationInProgress && dragStart == NoStart
      ensures var r := if old(operationInProgress) && !old(dragStart).NoStart?
                       then OperationRecord(old(base.dataObjects)[SpritesType], old(dragStart)) else None;
        var h := if r.Some? then UE.UndoRedo.Trim(old(base.history) + [r.value], UE.MaxHistory) else old(base.history);
        && (!(old(creating) && old(tempRect).Some? && SR.BigEnough(old(tempRect).value)) ==>
              && base.dataObjects == old(base.dataObjects) && base.history == h
              && base.redoStack == (if r.Some? then [] else old(base.redoStack)))
        && (old(creating) && old(tempRect).Some? && SR.BigEnough(old(tempRect).value) ==>
              exists name :: Created(old(base.dataObjects), h, name, old(tempRect).value))
    {
      CompleteCurrentOperation();
      LeftClickRelease();
    }

    /** `handle_left_click_release`: a pending creation is completed and
        every drag mode ends. */
    method LeftClickRelease()
      requires Valid()
      modifies this`tempRect, this`startPos, this`creating,
        this`draggingSprite, this`draggingOrigin, this`draggingEndpoint, this`resizing, this`resizeHandle
      modifies base`dataObjects, base`history, base`redoStack, base`selected
      ensures Valid()
      ensures !creating && !draggingSprite && !draggingOrigin && !draggingEndpoint && !resizing && resizeHandle == NoHandle
      ensures !(old(creating) && old(tempRect).Some? && SR.BigEnough(old(tempRect).value)) ==>
        base.dataObjects == old(base.dataObjects) && base.history == old(base.history) && base.redoStack == old(base.redoStack)
      ensures old(creating) && old(tempRect).Some? && SR.BigEnough(old(tempRect).value) ==>
        exists name :: Created(old(base.dataObjects), old(base.history), name, old(tempRect).value)
    {
      var make := creating && tempRect.Some?;
      creating, draggingSprite, draggingOrigin, draggingEndpoint, resizing := false, false, false, false, false;
      resizeHandle := NoHandle;
      if make {
        CompleteSpriteCreation();
      }
    }

    /** `delete_selected`: a "delete" record holding the sprite, executed,
        then nothing is selected. */
    method DeleteSelected()
      requires Valid()
      modifies base`dataObjects, base`history, base`redoStack, base`selected
      ensures Valid()
      ensures old(Current()).None? ==> base.dataObjects == old(base.dataObjects) && base.history == old(base.history)
      ensures old(Current()).Some? ==>
        var n := old(Current()).value;
        && base.dataObjects == old(base.dataObjects)[SpritesType := old(base.dataObjects)[SpritesType] - {n}]
        && base.selected == map[]
        && base.history != []
        && UE.UndoData(base.dataObjects, base.selected, base.history[|base.history| - 1]).0 == old(base.dataObjects)
    {
      var n := Current();
      if n.None? {
        return;
      }
      var d0 := base.dataObjects;
      ExecuteDelete(n.value);
      base.ClearSelection();
      DeleteRecordUndo(d0, base.selected, n.value);
    }

    /** The delete command of `delete_selected`, run through the core. */
    method ExecuteDelete(n: string)
      requires Valid() && n in base.dataObjects[SpritesType]
      modifies base`dataObjects, base`history, base`redoStack
      ensures Valid()
      ensures base.dataObjects == old(base.dataObjects)[SpritesType := old(base.dataObjects)[SpritesType] - {n}]
      ensures base.history != [] &&
        base.history[|base.history| - 1] == UE.Edit(UE.Delete, SpritesType, n, old(base.dataObjects)[SpritesType][n], UE.NoneValue)
    {
      var ok := base.ExecuteCommand(UE.Edit(UE.Delete, SpritesType, n, base.dataObjects[SpritesType][n], UE.NoneValue));
    }
  }
}
