/** The earlier panel-based sprite-sheet editor,
    pyspine/old_pyspine/NewEditor_SpriteSheet.py. It keeps the same sprites
    dictionary, selection and command set as the current editor (its state
    is `SpriteSheetEditor.Sheet` and its history runs
    `SpriteSheetEditor.Exec`), but it adds a property panel that renames a
    sprite and sets single fields, records a move when the mouse is
    released, never records an origin drag and has no resize behaviour. */
module LegacySpriteSheetEditor {
  import opened Types
  import SC = SpriteCommands
  import SR = SpriteRectRules
  import SSE = SpriteSheetEditor
  import UndoRedo
  import Names

  type Sheet = SSE.Sheet
  type Edit = SSE.Edit

  // ----- renaming from the property panel ----------------------------------------

  /** The "name" property: when the new name differs from the sprite's
      own name and is not a key, the sprite is popped, renamed and stored
      again under the new name (so it moves to the end of the insertion
      order), and the selection follows it. No command is recorded. */
  function RenameSprite(s: Sheet, newName: string): (r: Sheet)
    requires SSE.Chosen(s)
    ensures var n := s.selected.value; var v := s.sprites[n];
      && (newName == v.name || newName in s.sprites ==> r == s)
      && (newName != v.name && newName !in s.sprites ==>
           && r.selected == Some(newName) && n !in r.sprites && newName in r.sprites
           && r.sprites[newName] == v.(name := newName)
           && (forall k :: k != n && k != newName ==> (k in r.sprites <==> k in s.sprites))
           && (forall k :: k in s.sprites && k != n ==> r.sprites[k] == s.sprites[k])
           && r.order == SSE.Without(s.order, n) + [newName])
    ensures SSE.Ordered(s) ==> SSE.Ordered(r)
  {
    var n := s.selected.value;
    var v := s.sprites[n];
    if newName != v.name && newName !in s.sprites then
      SSE.Sheet((s.sprites - {n})[newName := v.(name := newName)], SSE.Without(s.order, n) + [newName], Some(newName))
    else s
  }

  /** Renaming back under the old key gives back the dictionary and the
      selection; the sprite is now last in the insertion order. */
  lemma {:induction false} RenameBack(s: Sheet, newName: string)
    requires SSE.Ordered(s) && SSE.Chosen(s)
    requires s.sprites[s.selected.value].name == s.selected.value
    requires newName != s.selected.value && newName !in s.sprites && newName != ""
    ensures var r := RenameSprite(RenameSprite(s, newName), s.selected.value);
      r.sprites == s.sprites && r.selected == s.selected
      && r.order == SSE.Without(s.order, s.selected.value) + [s.selected.value]
  {
    var n := s.selected.value;
    var v := s.sprites[n];
    var r1 := RenameSprite(s, newName);
    assert r1 == SSE.Sheet((s.sprites - {n})[newName := v.(name := newName)], SSE.Without(s.order, n) + [newName], Some(newName));
    var r := RenameSprite(r1, n);
    assert r == SSE.Sheet((r1.sprites - {newName})[n := v.(name := newName).(name := n)], SSE.Without(r1.order, newName) + [n], Some(n));
    RekeyBack(s.sprites, n, newName);
    WithoutAppended(SSE.Without(s.order, n), newName, n);
  }

  /** Moving a sprite to a free key and back gives the dictionary back. */
  lemma RekeyBack(sprites: map<string, SpriteRect>, n: string, newName: string)
    requires n in sprites && sprites[n].name == n && newName !in sprites
    ensures var v := sprites[n];
      (((sprites - {n})[newName := v.(name := newName)]) - {newName})[n := v.(name := newName).(name := n)] == sprites
  {
    var v := sprites[n];
    assert v.(name := newName).(name := n) == v;
    assert ((sprites - {n})[newName := v.(name := newName)]) - {newName} == sprites - {n};
  }

  lemma {:induction false} WithoutAppended(order: seq<string>, k: string, m: string)
    requires k !in order
    ensures SSE.Without(order + [k], k) == order
  {
    SSE.WithoutLast(order, k);
  }

  /** Python's commands hold the sprite object, not its name: after a
      rename the field commands already on the stacks still act on the
      same sprite. Here they are keyed by name, so a rename retargets them. */
  function Retarget(e: Edit, from: string, to: string): (r: Edit)
    ensures !e.Move? && !e.Resize? && !e.Origin? ==> r == e
    ensures (e.Move? || e.Resize? || e.Origin?) ==> r == e.(name := if e.name == from then to else e.name)
  {
    match e
    case Move(n, c) => SSE.Move(if n == from then to else n, c)
    case Resize(n, c) => SSE.Resize(if n == from then to else n, c)
    case Origin(n, c) => SSE.Origin(if n == from then to else n, c)
    case _ => e
  }

  function RetargetAll(stack: seq<Edit>, from: string, to: string): (r: seq<Edit>)
    ensures |r| == |stack| && forall i :: 0 <= i < |stack| ==> r[i] == Retarget(stack[i], from, to)
  {
    seq(|stack|, i requires 0 <= i < |stack| => Retarget(stack[i], from, to))
  }

  /** What a field command does to the sprite it names. */
  function FieldUpdate(e: Edit, v: SpriteRect): (w: SpriteRect)
    requires e.Move? || e.Resize? || e.Origin?
    ensures w.name == v.name
  {
    match e
    case Move(_, c) => SC.MoveSpriteExecute(c, v)
    case Resize(_, c) => SC.ResizeExecute(c, v)
    case Origin(_, c) => SC.OriginExecute(c, v)
  }

  lemma FieldUpdateIgnoresName(e: Edit, v: SpriteRect, name: string)
    requires e.Move? || e.Resize? || e.Origin?
    ensures FieldUpdate(e, v.(name := name)) == FieldUpdate(e, v).(name := name)
    ensures SSE.Exec(e, SSE.Sheet(map[], [], None)) == SSE.Sheet(map[], [], None)
  {
  }

  lemma FieldExec(e: Edit, s: Sheet)
    requires e.Move? || e.Resize? || e.Origin?
    ensures e.name in s.sprites ==> SSE.Exec(e, s) == SSE.Retouch(s, e.name, FieldUpdate(e, s.sprites[e.name]))
    ensures e.name !in s.sprites ==> SSE.Exec(e, s) == s
  {
  }

  /** Retargeting is the right model of object identity: running a field
      command of the renamed sprite after the rename has the same effect as
      running it before. */
  lemma RetargetCommutes(e: Edit, s: Sheet, newName: string)
    requires SSE.Ordered(s) && SSE.Chosen(s)
    requires e.Move? || e.Resize? || e.Origin?
    requires e.name != newName
    requires newName != s.sprites[s.selected.value].name && newName !in s.sprites
    ensures SSE.Exec(Retarget(e, s.selected.value, newName), RenameSprite(s, newName))
         == RenameSprite(SSE.Exec(e, s), newName)
  {
    var n := s.selected.value;
    var e2 := Retarget(e, n, newName);
    var r := RenameSprite(s, newName);
    var s1 := SSE.Exec(e, s);
    FieldExec(e, s);
    FieldExec(e2, r);
    assert s1.order == s.order && s1.selected == s.selected && n in s1.sprites;
    assert s1.sprites[n].name == s.sprites[n].name;
    var a := SSE.Exec(e2, r);
    var b := RenameSprite(s1, newName);
    assert a.order == b.order && a.selected == b.selected;
    assert a.sprites == b.sprites by {
      RetargetSprites(e, s, newName);
    }
  }

  lemma RetargetSprites(e: Edit, s: Sheet, newName: string)
    requires SSE.Chosen(s)
    requires e.Move? || e.Resize? || e.Origin?
    requires e.name != newName
    requires newName != s.sprites[s.selected.value].name && newName !in s.sprites
    ensures SSE.Exec(Retarget(e, s.selected.value, newName), RenameSprite(s, newName)).sprites
         == RenameSprite(SSE.Exec(e, s), newName).sprites
  {
    var n := s.selected.value;
    var v := s.sprites[n];
    var e2 := Retarget(e, n, newName);
    var r := RenameSprite(s, newName);
    var s1 := SSE.Exec(e, s);
    FieldExec(e, s);
    FieldExec(e2, r);
    if e.name == n {
      FieldUpdateIgnoresName(e, v, newName);
      assert s1.sprites == s.sprites[n := FieldUpdate(e, v)];
      assert (s1.sprites - {n})[newName := FieldUpdate(e, v).(name := newName)]
          == ((s.sprites - {n})[newName := v.(name := newName)])[newName := FieldUpdate(e, v.(name := newName))];
    } else if e.name in s.sprites {
      var m := e.name;
      assert s1.sprites == s.sprites[m := FieldUpdate(e, s.sprites[m])];
      assert (s1.sprites - {n})[newName := v.(name := newName)]
          == ((s.sprites - {n})[newName := v.(name := newName)])[m := FieldUpdate(e, s.sprites[m])];
    }
  }

  // ----- sizes from the property panel (finding) -------------------------------

  /** Python's `a, b, c, d = t`: a tuple of another length raises
      `ValueError`. */
  function Unpack4(t: seq<int>): (r: Option<SC.Bounds>)
    ensures r.Some? <==> |t| == 4
    ensures r.Some? ==> r.value.x == t[0] && r.value.y == t[1] && r.value.width == t[2] && r.value.height == t[3]
  {
    if |t| == 4 then Some(SC.Bounds(t[0], t[1], t[2], t[3])) else None
  }

  /** The "width" and "height" properties as written: the command is given
      the (width, height) pairs where it unpacks (x, y, width, height). */
  function SizeCommandAsWritten(oldSize: (int, int), newSize: (int, int)): (r: Option<SC.ResizeSprite>)
    ensures r.Some? ==> |[oldSize.0, oldSize.1]| == 4
  {
    match (Unpack4([oldSize.0, oldSize.1]), Unpack4([newSize.0, newSize.1]))
    case (Some(a), Some(b)) => Some(SC.ResizeSprite(a, b))
    case _ => None
  }

  /** So every width or height edit raises instead of resizing. */
  lemma SizePropertyRaises(v: SpriteRect, width: real, height: real)
    ensures SizeCommandAsWritten((v.width, v.height), (PyInt(width), v.height)) == None
    ensures SizeCommandAsWritten((v.width, v.height), (v.width, PyInt(height))) == None
  {
  }

  /** The command the property was meant to build: the sprite keeps its
      position and takes the new size; undoing gives the old size back. */
  function SizeEdit(v: SpriteRect, width: int, height: int): (r: SC.ResizeSprite)
    ensures SC.ResizeExecute(r, v) == v.(width := width, height := height)
    ensures SC.ResizeUndo(r, SC.ResizeExecute(r, v)) == v
  {
    SC.ResizeSprite(SC.BoundsOf(v), SC.Bounds(v.x, v.y, width, height))
  }

  datatype Property =
    | NameField(name: string)
    | XField(x: real)
    | YField(y: real)
    | WidthField(width: real)
    | HeightField(height: real)
    | OriginXField(originX: real)
    | OriginYField(originY: real)
    | OtherField

  /** The command a property edit of sprite `n` (value `v`) issues:
      `int(...)` of a coordinate or size, `float(...)` of an origin. */
  function PropertyEdit(n: string, v: SpriteRect, p: Property): (r: Option<Edit>)
    ensures p.NameField? || p.OtherField? <==> r.None?
    ensures r.Some? ==> SSE.Unexec(r.value, SSE.Exec(r.value, SSE.Sheet(map[n := v], [n], Some(n))))
                        == SSE.Sheet(map[n := v], [n], Some(n))
    ensures p.XField? ==> r == Some(SSE.Move(n, SC.MoveSprite(v.x, v.y, PyInt(p.x), v.y)))
    ensures p.YField? ==> r == Some(SSE.Move(n, SC.MoveSprite(v.x, v.y, v.x, PyInt(p.y))))
    ensures p.WidthField? ==> r == Some(SSE.Resize(n, SizeEdit(v, PyInt(p.width), v.height)))
    ensures p.HeightField? ==> r == Some(SSE.Resize(n, SizeEdit(v, v.width, PyInt(p.height))))
    ensures p.OriginXField? ==> r == Some(SSE.Origin(n, SC.ChangeOrigin(v.originX, v.originY, p.originX, v.originY)))
    ensures p.OriginYField? ==> r == Some(SSE.Origin(n, SC.ChangeOrigin(v.originX, v.originY, v.originX, p.originY)))
  {
    var s := SSE.Sheet(map[n := v], [n], Some(n));
    SSE.FieldEditsUndo(s, n, PyInt(if p.XField? then p.x else v.x as real), PyInt(if p.YField? then p.y else v.y as real),
      SC.Bounds(v.x, v.y, if p.WidthField? then PyInt(p.width) else v.width, if p.HeightField? then PyInt(p.height) else v.height),
      if p.OriginXField? then p.originX else v.originX, if p.OriginYField? then p.originY else v.originY);
    match p
    case XField(x) => Some(SSE.Move(n, SC.MoveSprite(v.x, v.y, PyInt(x), v.y)))
    case YField(y) => Some(SSE.Move(n, SC.MoveSprite(v.x, v.y, v.x, PyInt(y))))
    case WidthField(w) => Some(SSE.Resize(n, SizeEdit(v, PyInt(w), v.height)))
    case HeightField(h) => Some(SSE.Resize(n, SizeEdit(v, v.width, PyInt(h))))
    case OriginXField(f) => Some(SSE.Origin(n, SC.ChangeOrigin(v.originX, v.originY, f, v.originY)))
    case OriginYField(f) => Some(SSE.Origin(n, SC.ChangeOrigin(v.originX, v.originY, v.originX, f)))
    case _ => None
  }

  /** The record `_finish_sprite_drag` makes for sprite `n` (value `v`):
      none when the sprite is still at press point minus grab offset,
      otherwise a move from there (`int()` of it) to where it is now, which
      leaves the sprite as it is and whose undo puts it back. */
  function DragRecord(n: string, v: SpriteRect, start: (real, real), offset: (real, real)): (r: Option<Edit>)
    ensures r.None? <==> v.x as real == start.0 - offset.0 && v.y as real == start.1 - offset.1
    ensures r.Some? ==>
      (r.value.Move? && r.value.name == n
       && SC.MoveSpriteExecute(r.value.move, v) == v
       && SC.MoveSpriteUndo(r.value.move, v) == v.(x := PyInt(start.0 - offset.0), y := PyInt(start.1 - offset.1)))
  {
    var x0 := start.0 - offset.0;
    var y0 := start.1 - offset.1;
    if v.x as real == x0 && v.y as real == y0 then None
    else Some(SSE.Move(n, SC.MoveSprite(PyInt(x0), PyInt(y0), v.x, v.y)))
  }

  class Editor {
    const history: UndoRedo.UndoRedoManager<Sheet, Edit>
    var sheetSize: Option<(nat, nat)>
    var creating: bool
    var startPos: Option<(real, real)>
    var draggingSprite: bool
    var draggingOrigin: bool
    var resizing: bool
    var resizeHandle: ResizeHandle
    var dragStartPos: Option<(real, real)>
    var dragOffset: (real, real)

    ghost predicate Valid()
      reads this, history
    {
      && history.exec == SSE.Exec && history.unexec == SSE.Unexec
      && history.historyLimit == 50 && history.enabled
      && SSE.Ordered(history.state)
    }

    constructor (sheetSize: Option<(nat, nat)>)
      ensures Valid() && fresh(history)
      ensures history.state == SSE.Sheet(map[], [], None) && history.undoStack == [] && history.redoStack == []
      ensures this.sheetSize == sheetSize
      ensures !creating && !draggingSprite && !draggingOrigin && !resizing && resizeHandle == NoHandle
      ensures startPos == None && dragStartPos == None
    {
      history := new UndoRedo.UndoRedoManager(SSE.Sheet(map[], [], None), SSE.Exec, SSE.Unexec);
      this.sheetSize := sheetSize;
      creating, draggingSprite, draggingOrigin, resizing := false, false, false, false;
      resizeHandle := NoHandle;
      startPos, dragStartPos := None, None;
      dragOffset := (0.0, 0.0);
      new;
      assert SSE.Distinct([]);
    }

    /** `execute_command`. */
    method Issue(e: Edit)
      requires Valid()
      requires e.ClearAll? ==> SSE.Ordered(e.before)
      modifies history`state, history`undoStack, history`redoStack
      ensures Valid()
      ensures history.state == SSE.Exec(e, old(history.state))
      ensures history.redoStack == [] && history.undoStack == UndoRedo.Trim(old(history.undoStack) + [e], 50)
      ensures history.undoStack != [] && history.undoStack[|history.undoStack| - 1] == e
    {
      SSE.EditsKeepOrder(e, history.state);
      history.ExecuteCommand(e);
    }

    /** The rename branch of a property change: the sprite and the selection
        move to the new name, and the recorded commands follow them. */
    method Rename(newName: string)
      requires Valid() && SSE.Chosen(history.state)
      modifies history`state, history`undoStack, history`redoStack
      ensures Valid()
      ensures var n := old(history.state.selected).value;
        && history.state == RenameSprite(old(history.state), newName)
        && (history.state != old(history.state) ==>
              history.undoStack == RetargetAll(old(history.undoStack), n, newName)
              && history.redoStack == RetargetAll(old(history.redoStack), n, newName))
    {
      var s := history.state;
      var n := s.selected.value;
      var r := RenameSprite(s, newName);
      if r != s {
        history.state, history.undoStack, history.redoStack :=
          r, RetargetAll(history.undoStack, n, newName), RetargetAll(history.redoStack, n, newName);
      }
    }

    /** `_handle_property_change` for the selected sprite: a rename is
        applied directly, every other property through its command. */
    method PropertyChange(p: Property)
      requires Valid()
      modifies history`state, history`undoStack, history`redoStack
      ensures Valid()
      ensures !SSE.Chosen(old(history.state)) || p.OtherField? ==>
        history.state == old(history.state) && history.undoStack == old(history.undoStack)
      ensures SSE.Chosen(old(history.state)) && p.NameField? ==>
        var n := old(history.state.selected).value;
        && history.state == RenameSprite(old(history.state), p.name)
        && (history.state != old(history.state) ==>
              history.undoStack == RetargetAll(old(history.undoStack), n, p.name)
              && history.redoStack == RetargetAll(old(history.redoStack), n, p.name))
      ensures SSE.Chosen(old(history.state)) && !p.NameField? && !p.OtherField? ==>
        var n := old(history.state.selected).value;
        var e := PropertyEdit(n, old(history.state.sprites)[n], p).value;
        && history.state == SSE.Exec(e, old(history.state))
        && history.undoStack != [] && history.undoStack[|history.undoStack| - 1] == e
    {
      var s := history.state;
      if !SSE.Chosen(s) {
        return;
      }
      var n := s.selected.value;
      if p.NameField? {
        Rename(p.name);
      } else {
        var e := PropertyEdit(n, s.sprites[n], p);
        if e.Some? {
          Issue(e.value);
        }
      }
    }

    /** `_handle_mouse_down` (left button): the topmost sprite under the
        point is selected, then its origin marker starts an origin drag, a
        resize handle (inclusive test) a resize, anything else a move; a
        click on no sprite starts creating one. */
    method MouseDown(p: (real, real), handleSize: real, originRadius: int)
      requires Valid()
      modifies this`draggingOrigin, this`resizeHandle, this`resizing, this`draggingSprite, this`dragOffset,
        this`dragStartPos, this`creating, this`startPos, history`state
      ensures Valid()
      ensures history.state.sprites == old(history.state.sprites) && history.state.order == old(history.state.order)
      ensures var hit := SR.TopmostAt(old(history.state.order), SSE.Rects(old(history.state.sprites)), p);
        && (IsSet(hit) ==>
             && history.state.selected == hit && dragStartPos == Some(p)
             && Grabbed(old(history.state.sprites)[hit.value], p, handleSize, originRadius))
        && (!IsSet(hit) ==> creating && startPos == Some(p) && history.state == old(history.state))
    {
      var s := history.state;
      assert SR.Covers(s.order, SSE.Rects(s.sprites));
      var hit := SR.TopmostAt(s.order, SSE.Rects(s.sprites), p);
      if IsSet(hit) {
        Grab(s.sprites[hit.value], p, handleSize, originRadius);
        dragStartPos := Some(p);
        history.state := s.(selected := hit);
      } else {
        creating := true;
        startPos := Some(p);
      }
    }

    /** The part of a press that lands on a sprite: its origin marker
        starts an origin drag, else a handle (inclusive test) starts a
        resize, else the sprite is grabbed at the offset of the press from
        its corner; the other drag fields keep their values. */
    twostate predicate Grabbed(v: SpriteRect, p: (real, real), handleSize: real, originRadius: int)
      reads this
    {
      if SR.MarkerHit(SC.BoundsOf(v), v.originX, v.originY, p, originRadius) then
        && draggingOrigin && resizeHandle == old(resizeHandle) && resizing == old(resizing)
        && draggingSprite == old(draggingSprite) && dragOffset == old(dragOffset)
      else
        && draggingOrigin == old(draggingOrigin)
        && resizeHandle == SR.HandleAt(SC.BoundsOf(v), p, handleSize, true)
        && (resizeHandle != NoHandle ==> resizing && draggingSprite == old(draggingSprite) && dragOffset == old(dragOffset))
        && (resizeHandle == NoHandle ==>
              resizing == old(resizing) && draggingSprite && dragOffset == (p.0 - v.x as real, p.1 - v.y as real))
    }

    /** The drag a press on sprite `v` starts, as `Grabbed` states it. */
    method Grab(v: SpriteRect, p: (real, real), handleSize: real, originRadius: int)
      modifies this`draggingOrigin, this`resizeHandle, this`resizing, this`draggingSprite, this`dragOffset
      ensures Grabbed(v, p, handleSize, originRadius)
    {
      if SR.MarkerHit(SC.BoundsOf(v), v.originX, v.originY, p, originRadius) {
        draggingOrigin := true;
      } else {
        resizeHandle := SR.HandleAt(SC.BoundsOf(v), p, handleSize, true);
        if resizeHandle != NoHandle {
          resizing := true;
        } else {
          draggingSprite := true;
          dragOffset := (p.0 - v.x as real, p.1 - v.y as real);
        }
      }
    }

    /** `_handle_mouse_motion`: a move puts the sprite's corner at the mouse
        minus the grab offset, never below 0; an origin drag sets the origin
        to the mouse's fraction of the sprite, and fails (`ok` false, as the
        division by zero raises) for a sprite of zero width or height. A
        resize changes nothing. */
    method MouseMotion(p: (real, real)) returns (ok: bool)
      requires Valid()
      modifies history`state
      ensures Valid()
      ensures history.state.order == old(history.state.order) && history.state.selected == old(history.state.selected)
      ensures history.state.sprites.Keys == old(history.state.sprites).Keys
      ensures forall k :: k in old(history.state.sprites) && Some(k) != old(history.state.selected) ==>
        history.state.sprites[k] == old(history.state.sprites)[k]
      ensures !ok ==> history.state == old(history.state)
      ensures SSE.Chosen(old(history.state)) && !(creating && startPos.Some?) && draggingSprite ==>
        var n := old(history.state.selected).value;
        && ok
        && history.state.sprites[n] == old(history.state.sprites)[n].(x := SR.LegacyDragAxis(p.0, dragOffset.0),
                                                                      y := SR.LegacyDragAxis(p.1, dragOffset.1))
        && history.state.sprites[n].x >= 0 && history.state.sprites[n].y >= 0
      ensures SSE.Chosen(old(history.state)) && !(creating && startPos.Some?) && !draggingSprite && !resizing && draggingOrigin ==>
        var n := old(history.state.selected).value; var v := old(history.state.sprites)[n];
        && (ok <==> v.width != 0 && v.height != 0)
        && (ok ==> 0.0 <= history.state.sprites[n].originX <= 1.0 && 0.0 <= history.state.sprites[n].originY <= 1.0)
        && (ok && v.width > 0 && v.height > 0 ==>
              history.state.sprites[n] == v.(originX := SR.MarkerAxis(p.0, v.x, v.width), originY := SR.MarkerAxis(p.1, v.y, v.height)))
      ensures (creating && startPos.Some?) || (!draggingSprite && resizing) ==> history.state == old(history.state)
    {
      ok := true;
      var s := history.state;
      if creating && startPos.Some? {
        return;
      }
      if !SSE.Chosen(s) {
        return;
      }
      var n := s.selected.value;
      var v := s.sprites[n];
      if draggingSprite {
        history.state := SSE.Retouch(s, n, v.(x := SR.LegacyDragAxis(p.0, dragOffset.0), y := SR.LegacyDragAxis(p.1, dragOffset.1)));
      } else if resizing {
      } else if draggingOrigin {
        var fx := SR.LegacyMarkerAxis(p.0, v.x, v.width);
        var fy := SR.LegacyMarkerAxis(p.1, v.y, v.height);
        if fx.None? || fy.None? {
          ok := false;
          return;
        }
        history.state := SSE.Retouch(s, n, v.(originX := fx.value, originY := fy.value));
      }
    }

    /** `_finish_sprite_creation`: the rectangle from the press to the
        release point, enlarged to at least 32 when too small and fitted to
        the sheet, becomes sprite "sprite_N" (smallest free N), selected. */
    method FinishSpriteCreation(end: (real, real)) returns (name: string)
      requires Valid() && startPos.Some?
      modifies history`state, history`undoStack, history`redoStack
      ensures Valid()
      ensures name !in old(history.state.sprites)
      ensures exists k :: (k >= 1 && name == "sprite_" + Names.Digits(k)
        && forall j :: 1 <= j < k ==> "sprite_" + Names.Digits(j) in old(history.state.sprites))
      ensures history.state == SSE.Sheet(old(history.state.sprites)[name := SSE.NewSprite(name, SR.FinishCreationBounds(startPos.value, end, sheetSize))],
                                         old(history.state.order) + [name], Some(name))
      ensures history.undoStack != [] && SSE.Unexec(history.undoStack[|history.undoStack| - 1], history.state) == old(history.state).(selected := Some(name))
    {
      var k;
      name, k := Names.FirstFreeCounter(history.state.sprites.Keys, "sprite_");
      var c := SC.Create(name, SSE.NewSprite(name, SR.FinishCreationBounds(startPos.value, end, sheetSize)));
      SSE.AddUndo(history.state, c);
      Issue(SSE.Add(c));
      history.state := history.state.(selected := Some(name));
    }

    /** `_create_new_sprite`: a 32 by 32 sprite centred on the point. */
    method CreateNewSprite(center: (real, real)) returns (name: string)
      requires Valid()
      modifies history`state, history`undoStack, history`redoStack
      ensures Valid()
      ensures name !in old(history.state.sprites) && history.state.selected == Some(name)
      ensures history.state.sprites == old(history.state.sprites)[name := SSE.NewSprite(name, SC.Bounds(PyInt(center.0 - 16.0), PyInt(center.1 - 16.0), 32, 32))]
      ensures history.state.order == old(history.state.order) + [name]
      ensures history.undoStack != [] && SSE.Unexec(history.undoStack[|history.undoStack| - 1], history.state) == old(history.state).(selected := Some(name))
    {
      var k;
      name, k := Names.FirstFreeCounter(history.state.sprites.Keys, "sprite_");
      var c := SC.Create(name, SSE.NewSprite(name, SC.Bounds(PyInt(center.0 - 16.0), PyInt(center.1 - 16.0), 32, 32)));
      SSE.AddUndo(history.state, c);
      Issue(SSE.Add(c));
      history.state := history.state.(selected := Some(name));
    }

    /** `_finish_sprite_drag`: when the sprite is no longer where the drag
        started, a move from the start to the current place is executed
        (changing nothing) and recorded. */
    method FinishSpriteDrag()
      requires Valid()
      modifies history`state, history`undoStack, history`redoStack
      ensures Valid()
      ensures history.state == old(history.state)
      ensures !(SSE.Chosen(history.state) && dragStartPos.Some?) ==> history.undoStack == old(history.undoStack)
      ensures SSE.Chosen(history.state) && dragStartPos.Some? ==>
        var r := DragRecord(history.state.selected.value, history.state.sprites[history.state.selected.value], dragStartPos.value, dragOffset);
        && (r.None? ==> history.undoStack == old(history.undoStack))
        && (r.Some? ==> history.undoStack != [] && history.undoStack[|history.undoStack| - 1] == r.value)
    {
      var s := history.state;
      if SSE.Chosen(s) && dragStartPos.Some? {
        var n := s.selected.value;
        var r := DragRecord(n, s.sprites[n], dragStartPos.value, dragOffset);
        if r.Some? {
          assert s.sprites[n := s.sprites[n]] == s.sprites;
          Issue(r.value);
        }
      }
    }

    /** `_handle_mouse_up` (left button): a creation or a move is finished
        (the resize and origin-drag finishers are empty), then every drag
        mode ends. */
    method MouseUp(end: (real, real))
      requires Valid()
      modifies this, history`state, history`undoStack, history`redoStack
      ensures Valid()
      ensures !creating && !draggingSprite && !resizing && !draggingOrigin && resizeHandle == NoHandle
      ensures startPos == None && dragStartPos == None && sheetSize == old(sheetSize)
      ensures old(creating) && old(startPos).Some? ==>
        && history.state.selected.Some? && history.state.selected.value !in old(history.state.sprites)
        && history.state.sprites == old(history.state.sprites)[history.state.selected.value :=
             SSE.NewSprite(history.state.selected.value, SR.FinishCreationBounds(old(startPos).value, end, old(sheetSize)))]
      ensures !(old(creating) && old(startPos).Some?) ==> history.state == old(history.state)
      ensures !(old(creating) && old(startPos).Some?) && !old(draggingSprite) ==> history.undoStack == old(history.undoStack)
    {
      if creating && startPos.Some? {
        var _ := FinishSpriteCreation(end);
      } else if draggingSprite {
        FinishSpriteDrag();
      }
      creating, draggingSprite, resizing, draggingOrigin := false, false, false, false;
      startPos, dragStartPos := None, None;
      resizeHandle := NoHandle;
    }

    /** `_delete_selected_sprite`: a delete command when the selection is a
        key, then nothing is selected. */
    method DeleteSelected()
      requires Valid()
      modifies history`state, history`undoStack, history`redoStack
      ensures Valid()
      ensures !SSE.Chosen(old(history.state)) ==> history.state == old(history.state) && history.undoStack == old(history.undoStack)
      ensures SSE.Chosen(old(history.state)) ==>
        var n := old(history.state.selected).value;
        && history.state.sprites == old(history.state.sprites) - {n}
        && history.state.selected == None
        && history.undoStack != [] && history.undoStack[|history.undoStack| - 1] == SSE.Remove(SC.NewDelete(old(history.state.sprites), n))
    {
      var s := history.state;
      if SSE.Chosen(s) {
        Issue(SSE.Remove(SC.NewDelete(s.sprites, s.selected.value)));
        history.state := history.state.(selected := None);
      }
    }
  }
}
