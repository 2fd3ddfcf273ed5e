/** The sprite-sheet editor of pyspine/PySpine_SpriteSheetEditor.py (its GUI
    twin pyspine/Editor_SpriteSheet.py has the same editing logic): sprite
    rectangles are cut out of a loaded sheet by dragging, then moved,
    resized and given an origin with the mouse, under an undo history.

    The history's state is the sprites dictionary with its key insertion
    order (which decides which of two overlapping sprites a click hits) and
    the selected name, since clearing all sprites and undoing it changes the
    selection too. Creating, deleting and clearing go through
    `execute_command`; moves, resizes and origin drags change the sprite
    directly while the mouse moves and are recorded afterwards, straight
    onto the undo stack, when the value changed. */
module SpriteSheetEditor {
  import opened Types
  import SC = SpriteCommands
  import SR = SpriteRectRules
  import UndoRedo
  import Names

  type Sprites = map<string, SpriteRect>

  datatype Sheet = Sheet(sprites: Sprites, order: seq<string>, selected: Option<string>)

  predicate Distinct(s: seq<string>) {
    forall i, j :: 0 <= i < j < |s| ==> s[i] != s[j]
  }

  /** The order lists every key of the dictionary once. */
  predicate Ordered(s: Sheet) {
    && Distinct(s.order)
    && (forall k :: k in s.order ==> k in s.sprites)
    && (forall k :: k in s.sprites ==> k in s.order)
  }

  /** The selected name is set and is a key (`self.sprites[self.selected_sprite]`
      would succeed). */
  predicate Chosen(s: Sheet) {
    IsSet(s.selected) && s.selected.value in s.sprites
  }

  // ----- the dictionary and its insertion order --------------------------------

  /** `order` without `k`. */
  function Without(order: seq<string>, k: string): (r: seq<string>)
    ensures forall x :: x in r <==> x in order && x != k
    ensures Distinct(order) ==> Distinct(r)
    ensures k !in order ==> r == order
  {
    if order == [] then []
    else
      var rest := Without(order[1..], k);
      assert Distinct(order) ==> Distinct(order[1..]) && order[0] !in order[1..];
      if order[0] == k then rest else [order[0]] + rest
  }

  /** `sprites[k] = v`: a new key goes last, an existing key keeps its
      place. */
  function Put(s: Sheet, k: string, v: SpriteRect): (r: Sheet)
    ensures r.sprites == SC.CreateExecute(SC.Create(k, v), s.sprites) && r.selected == s.selected
    ensures Ordered(s) ==> Ordered(r)
  {
    Sheet(s.sprites[k := v], if k in s.sprites then s.order else s.order + [k], s.selected)
  }

  /** `del sprites[k]` when `k` is a key. */
  function Drop(s: Sheet, k: string): (r: Sheet)
    ensures r.sprites == SC.CreateUndo(SC.Create(k, SpriteRect(k, 0, 0, 0, 0)), s.sprites) && r.selected == s.selected
    ensures Ordered(s) ==> Ordered(r)
  {
    if k in s.sprites then Sheet(s.sprites - {k}, Without(s.order, k), s.selected) else s
  }

  /** A direct assignment to fields of a sprite already in the dictionary. */
  function Retouch(s: Sheet, k: string, v: SpriteRect): (r: Sheet)
    requires k in s.sprites
    ensures r.order == s.order && r.selected == s.selected && r.sprites.Keys == s.sprites.Keys
    ensures Ordered(s) ==> Ordered(r)
  {
    s.(sprites := s.sprites[k := v])
  }

  function Rects(d: Sprites): (r: map<string, SC.Bounds>)
    ensures r.Keys == d.Keys
    ensures forall k :: k in d ==> r[k] == SC.BoundsOf(d[k])
  {
    map k | k in d :: SC.BoundsOf(d[k])
  }

  // ----- commands --------------------------------------------------------------

  /** The commands of the editor's history. The field commands hold the
      sprite's name where Python holds the sprite object. `ClearAll` holds
      the dictionary (in order) and the selection at construction. */
  datatype Edit =
    | Add(create: SC.Create<SpriteRect>)
    | Remove(delete: SC.Delete<SpriteRect>)
    | Move(name: string, move: SC.MoveSprite)
    | Resize(name: string, resize: SC.ResizeSprite)
    | Origin(name: string, origin: SC.ChangeOrigin)
    | ClearAll(before: Sheet)

  function Exec(e: Edit, s: Sheet): Sheet {
    match e
    case Add(c) => Put(s, c.key, c.item)
    case Remove(c) => Drop(s, c.key)
    case Move(n, c) => if n in s.sprites then Retouch(s, n, SC.MoveSpriteExecute(c, s.sprites[n])) else s
    case Resize(n, c) => if n in s.sprites then Retouch(s, n, SC.ResizeExecute(c, s.sprites[n])) else s
    case Origin(n, c) => if n in s.sprites then Retouch(s, n, SC.OriginExecute(c, s.sprites[n])) else s
    case ClearAll(_) => Sheet(map[], [], None)
  }

  function Unexec(e: Edit, s: Sheet): Sheet {
    match e
    case Add(c) => Drop(s, c.key)
    case Remove(c) => if c.snapshot.Some? then Put(s, c.key, c.snapshot.value) else s
    case Move(n, c) => if n in s.sprites then Retouch(s, n, SC.MoveSpriteUndo(c, s.sprites[n])) else s
    case Resize(n, c) => if n in s.sprites then Retouch(s, n, SC.ResizeUndo(c, s.sprites[n])) else s
    case Origin(n, c) => if n in s.sprites then Retouch(s, n, SC.OriginUndo(c, s.sprites[n])) else s
    case ClearAll(b) => b
  }

  /** Every command keeps the order in step with the dictionary, both ways
      (a clear's undo needs the recorded dictionary to have been so). */
  lemma EditsKeepOrder(e: Edit, s: Sheet)
    requires Ordered(s)
    requires e.ClearAll? ==> Ordered(e.before)
    ensures Ordered(Exec(e, s)) && Ordered(Unexec(e, s))
  {
    assert Distinct([]);
  }

  /** Creating a sprite under a new name and undoing gives back the
      dictionary, its order and the selection. */
  lemma AddUndo(s: Sheet, c: SC.Create<SpriteRect>)
    requires Ordered(s) && c.key !in s.sprites
    ensures Unexec(Add(c), Exec(Add(c), s)) == s
  {
    assert Without(s.order + [c.key], c.key) == s.order by {
      WithoutLast(s.order, c.key);
    }
    assert (s.sprites[c.key := c.item]) - {c.key} == s.sprites;
  }

  lemma {:induction false} WithoutLast(order: seq<string>, k: string)
    requires k !in order
    ensures Without(order + [k], k) == order
  {
    if order != [] {
      assert (order + [k])[1..] == order[1..] + [k];
      WithoutLast(order[1..], k);
    } else {
      assert [k][1..] == [];
    }
  }

  /** Deleting a sprite and undoing gives back the dictionary and the
      selection, but the sprite is re-inserted: it is now last in the
      order, on top of every sprite it overlaps. */
  lemma RemoveUndo(s: Sheet, k: string)
    requires Ordered(s) && k in s.sprites
    requires s.sprites[k].width >= 0 && s.sprites[k].height >= 0
    ensures var s2 := Unexec(Remove(SC.NewDelete(s.sprites, k)), Exec(Remove(SC.NewDelete(s.sprites, k)), s));
      && s2.sprites == s.sprites && s2.selected == s.selected
      && s2.order == Without(s.order, k) + [k]
      && SR.TopmostAt(s2.order, Rects(s2.sprites), (s.sprites[k].x as real, s.sprites[k].y as real)) == Some(k)
  {
    var s2 := Unexec(Remove(SC.NewDelete(s.sprites, k)), Exec(Remove(SC.NewDelete(s.sprites, k)), s));
    assert (s.sprites - {k})[k := s.sprites[k]] == s.sprites;
    var q := (s.sprites[k].x as real, s.sprites[k].y as real);
    assert SR.Contains(Rects(s2.sprites)[k], q);
    assert s2.order[|s2.order| - 1] == k;
    assert SR.Covers(s2.order, Rects(s2.sprites));

  }

  /** `ClearSpritesCommand`: executing empties the dictionary and the
      selection; undoing restores both as recorded, order included. */
  lemma ClearUndo(s: Sheet, t: Sheet)
    ensures Exec(ClearAll(s), t).sprites == map[] && Exec(ClearAll(s), t).selected == None
    ensures Unexec(ClearAll(s), Exec(ClearAll(s), t)) == s
    ensures Exec(ClearAll(s), Unexec(ClearAll(s), t)) == Exec(ClearAll(s), t)
  {
  }

  /** A field command built from the sprite's current values is undone
      exactly, and redoing it after the undo gives the edited sprite back. */
  lemma FieldEditsUndo(s: Sheet, n: string, x: int, y: int, b: SC.Bounds, ox: real, oy: real)
    requires n in s.sprites
    ensures var m := Move(n, SC.MoveSprite(s.sprites[n].x, s.sprites[n].y, x, y));
      Unexec(m, Exec(m, s)) == s && Exec(m, Unexec(m, Exec(m, s))) == Exec(m, s)
    ensures var r := Resize(n, SC.ResizeSprite(SC.BoundsOf(s.sprites[n]), b));
      Unexec(r, Exec(r, s)) == s && Exec(r, Unexec(r, Exec(r, s))) == Exec(r, s)
    ensures var o := Origin(n, SC.ChangeOrigin(s.sprites[n].originX, s.sprites[n].originY, ox, oy));
      Unexec(o, Exec(o, s)) == s && Exec(o, Unexec(o, Exec(o, s))) == Exec(o, s)
  {
    var v := s.sprites[n];
    assert s.sprites[n := v] == s.sprites;
  }

  // ----- recording a finished drag ----------------------------------------------

  /** The record `_complete_current_operation` puts on the undo stack for
      the selected sprite: the first of resize, move and origin whose start
      value was stored, if the sprite's value differs from it. */
  function OperationRecord(s: Sheet, resizing: bool, dragging: bool, draggingOrigin: bool,
                           startBounds: Option<SC.Bounds>, startPos: Option<(int, int)>,
                           startOrigin: Option<(real, real)>): (r: Option<Edit>)
    requires Chosen(s)
    ensures var n := s.selected.value; var v := s.sprites[n];
      && (resizing && startBounds.Some? ==>
           (r.Some? <==> SC.BoundsOf(v) != startBounds.value)
           && (r.Some? ==> Unexec(r.value, s) == Retouch(s, n, SC.WithBounds(v, startBounds.value))))
      && (!(resizing && startBounds.Some?) && dragging && startPos.Some? ==>
           (r.Some? <==> (v.x, v.y) != startPos.value)
           && (r.Some? ==> Unexec(r.value, s) == Retouch(s, n, v.(x := startPos.value.0, y := startPos.value.1))))
      && (!(resizing && startBounds.Some?) && !(dragging && startPos.Some?) && draggingOrigin && startOrigin.Some? ==>
           (r.Some? <==> (v.originX, v.originY) != startOrigin.value)
           && (r.Some? ==> Unexec(r.value, s) == Retouch(s, n, v.(originX := startOrigin.value.0, originY := startOrigin.value.1))))
      && (!(resizing && startBounds.Some?) && !(dragging && startPos.Some?) && !(draggingOrigin && startOrigin.Some?) ==> r.None?)
    ensures r.Some? ==> Unexec(r.value, s) != s && Exec(r.value, Unexec(r.value, s)) == s
  {
    var n := s.selected.value;
    var v := s.sprites[n];
    assert s.sprites[n := v] == s.sprites;
    if resizing && startBounds.Some? then
      if SC.BoundsOf(v) != startBounds.value then
        assert SC.BoundsOf(SC.WithBounds(v, startBounds.value)) != SC.BoundsOf(v);
        Some(Resize(n, SC.ResizeSprite(startBounds.value, SC.BoundsOf(v))))
      else None
    else if dragging && startPos.Some? then
      if (v.x, v.y) != startPos.value then
        Some(Move(n, SC.MoveSprite(startPos.value.0, startPos.value.1, v.x, v.y)))
      else None
    else if draggingOrigin && startOrigin.Some? then
      if (v.originX, v.originY) != startOrigin.value then
        Some(Origin(n, SC.ChangeOrigin(startOrigin.value.0, startOrigin.value.1, v.originX, v.originY)))
      else None
    else None
  }

  /** The name and rectangle of a new sprite (`SpriteRect(name, int(x), ...)`,
      default origin). */
  function NewSprite(name: string, b: SC.Bounds): SpriteRect {
    SpriteRect(name, b.x, b.y, b.width, b.height)
  }

  /** The drag a press at `p` on sprite `v` starts: on its origin marker
      an origin drag from the current origin, elsewhere a move from the
      current corner keeping the press offset; the other drag flag keeps
      its value `origin0` or `sprite0`. */
  predicate Grab(v: SpriteRect, p: (real, real), originRadius: int,
                 origin: bool, startOrigin: Option<(real, real)>, sprite: bool,
                 startPosition: Option<(int, int)>, offset: (real, real), origin0: bool, sprite0: bool)
  {
    if SR.MarkerHit(SC.BoundsOf(v), v.originX, v.originY, p, originRadius) then
      origin && startOrigin == Some((v.originX, v.originY)) && sprite == sprite0
    else
      sprite && startPosition == Some((v.x, v.y)) && offset == (p.0 - v.x as real, p.1 - v.y as real) && origin == origin0
  }

  /** The resize handle of the selected sprite under the point, if it is a
      key (`_get_resize_handle_at_position`, strict test). */
  function SelectedHandle(s: Sheet, p: (real, real), size: real): (h: ResizeHandle)
    ensures h != NoHandle ==> Chosen(s) && SR.Near(p, SR.HandlePoint(SC.BoundsOf(s.sprites[s.selected.value]), h), size, false)
  {
    if Chosen(s) then SR.HandleAt(SC.BoundsOf(s.sprites[s.selected.value]), p, size, false) else NoHandle
  }

  class Editor {
    const history: UndoRedo.UndoRedoManager<Sheet, Edit>
    var sheetSize: Option<(nat, nat)>
    var creating: bool
    var startPos: Option<(real, real)>
    var tempRect: Option<SC.Bounds>
    var draggingOrigin: bool
    var draggingSprite: bool
    var resizing: bool
    var resizeHandle: ResizeHandle
    var operationInProgress: bool
    var dragOffset: (real, real)
    var dragStartBounds: Option<SC.Bounds>
    var dragStartPosition: Option<(int, int)>
    var dragStartOrigin: Option<(real, real)>

    /** The history runs this editor's commands, with the default limit of
        50, and the order stays in step with the dictionary. */
    ghost predicate Valid()
      reads this, history
    {
      && history.exec == Exec && history.unexec == Unexec
      && history.historyLimit == 50 && history.enabled
      && Ordered(history.state)
    }

    constructor (sheetSize: Option<(nat, nat)>)
      ensures Valid() && fresh(history)
      ensures history.state == Sheet(map[], [], None) && history.undoStack == [] && history.redoStack == []
      ensures this.sheetSize == sheetSize
      ensures !creating && !draggingOrigin && !draggingSprite && !resizing && !operationInProgress
      ensures resizeHandle == NoHandle && tempRect == None && startPos == None
    {
      history := new UndoRedo.UndoRedoManager(Sheet(map[], [], None), Exec, Unexec);
      this.sheetSize := sheetSize;
      creating, draggingOrigin, draggingSprite, resizing, operationInProgress := false, false, false, false, false;
      resizeHandle := NoHandle;
      startPos, tempRect := None, None;
      dragOffset := (0.0, 0.0);
      dragStartBounds, dragStartPosition, dragStartOrigin := None, None, None;
      new;
      assert Distinct([]);
    }

    /** `execute_command`. */
    method Issue(e: Edit)
      requires Valid()
      requires e.ClearAll? ==> Ordered(e.before)
      modifies history`state, history`undoStack, history`redoStack
      ensures Valid()
      ensures history.state == Exec(e, old(history.state))
      ensures history.redoStack == [] && history.undoStack == UndoRedo.Trim(old(history.undoStack) + [e], 50)
      ensures history.undoStack != [] && history.undoStack[|history.undoStack| - 1] == e
    {
      EditsKeepOrder(e, history.state);
      history.ExecuteCommand(e);
    }

    /** `_create_sprite_at_bounds`: a create command under the next free
      "sprite_N" name, which is then selected. */
    method CreateAtBounds(b: SC.Bounds) returns (name: string)
      requires Valid()
      modifies history`state, history`undoStack, history`redoStack
      ensures Valid()
      ensures name !in old(history.state.sprites)
      ensures exists k :: k >= 1 && name == "sprite_" + Names.Digits(k) && !Names.SuffixUsed(old(history.state.sprites).Keys, "sprite_", k)
      ensures history.state == Sheet(old(history.state.sprites)[name := NewSprite(name, b)],
                                     old(history.state.order) + [name], Some(name))
      ensures history.undoStack != [] && history.undoStack[|history.undoStack| - 1] == Add(SC.Create(name, NewSprite(name, b)))
      ensures history.undoStack == UndoRedo.Trim(old(history.undoStack) + [Add(SC.Create(name, NewSprite(name, b)))], 50)
      ensures history.redoStack == []
      ensures Unexec(Add(SC.Create(name, NewSprite(name, b))), history.state) == old(history.state).(selected := Some(name))
    {
      var k;
      name, k := Names.NextFreeName(history.state.sprites.Keys, "sprite_");
      ghost var s0 := history.state;
      Issue(Add(SC.Create(name, NewSprite(name, b))));
      AddUndo(s0, SC.Create(name, NewSprite(name, b)));
      history.state := history.state.(selected := Some(name));
    }

    /** `_create_sprite_at_position`: a 50 by 50 sprite at the point, kept on
        the sheet. */
    method CreateAtPosition(p: (real, real)) returns (name: string)
      requires Valid()
      modifies history`state, history`undoStack, history`redoStack
      ensures Valid()
      ensures name !in old(history.state.sprites) && history.state.selected == Some(name)
      ensures history.state.sprites == old(history.state.sprites)[name := NewSprite(name, SR.AtPositionBounds(p, sheetSize))]
      ensures sheetSize.Some? ==>
        (0 <= history.state.sprites[name].x && history.state.sprites[name].x + history.state.sprites[name].width <= sheetSize.value.0)
    {
      name := CreateAtBounds(SR.AtPositionBounds(p, sheetSize));
    }

    /** `_clear_all_sprites`: a clear command, only when there are sprites. */
    method ClearAllSprites()
      requires Valid()
      modifies history`state, history`undoStack, history`redoStack
      ensures Valid()
      ensures old(history.state.sprites) == map[] ==>
        history.state == old(history.state) && history.undoStack == old(history.undoStack)
      ensures old(history.state.sprites) != map[] ==>
        && history.state.sprites == map[] && history.state.selected == None
        && history.undoStack != [] && Unexec(history.undoStack[|history.undoStack| - 1], history.state) == old(history.state)
    {
      if history.state.sprites != map[] {
        Issue(ClearAll(history.state));
      }
    }

    /** `delete_selected`: a delete command for the selected name (a no-op
        command when it is not a key), then nothing is selected. */
    method DeleteSelected()
      requires Valid()
      modifies history`state, history`undoStack, history`redoStack
      ensures Valid()
      ensures !IsSet(old(history.state.selected)) ==> history.state == old(history.state) && history.undoStack == old(history.undoStack)
      ensures IsSet(old(history.state.selected)) ==>
        var n := old(history.state.selected).value;
        && history.state.sprites == old(history.state.sprites) - {n}
        && history.state.order == Without(old(history.state.order), n)
        && history.state.selected == None
        && history.undoStack != [] && history.undoStack[|history.undoStack| - 1] == Remove(SC.NewDelete(old(history.state.sprites), n))
    {
      var sel := history.state.selected;
      if IsSet(sel) {
        Issue(Remove(SC.NewDelete(history.state.sprites, sel.value)));
        history.state := history.state.(selected := None);
      }
    }

    /** `_handle_sprite_panel_click`: the row under the mouse selects the
        sprite at that position of the insertion order. */
    method SelectFromPanel(row: int)
      requires Valid()
      modifies history`state
      ensures Valid()
      ensures 0 <= row < |old(history.state.order)| ==>
        history.state == old(history.state).(selected := Some(old(history.state.order)[row]))
      ensures !(0 <= row < |old(history.state.order)|) ==> history.state == old(history.state)
      ensures 0 <= row < |old(history.state.order)| ==> history.state.selected.value in history.state.sprites
    {
      if 0 <= row < |history.state.order| {
        history.state := history.state.(selected := Some(history.state.order[row]));
      }
    }

    /** `_handle_viewport_click` outside sprite creation: a handle of the
        selected sprite starts a resize; otherwise the topmost sprite under
        the point is selected and its origin marker starts an origin drag,
        its body a move; a click on no sprite starts creating one. */
    method ViewportClick(p: (real, real), handleSize: real, originRadius: int)
      requires Valid()
      modifies this`resizeHandle, this`resizing, this`operationInProgress, this`dragStartBounds,
        this`draggingOrigin, this`dragStartOrigin, this`draggingSprite, this`dragOffset,
        this`dragStartPosition, this`creating, this`startPos, history`state
      ensures Valid()
      ensures history.undoStack == old(history.undoStack) && history.state.sprites == old(history.state.sprites)
      ensures old(creating) ==> history.state == old(history.state) && creating && startPos == old(startPos)
      ensures !old(creating) && SelectedHandle(old(history.state), p, handleSize) != NoHandle ==>
        && resizing && operationInProgress && history.state == old(history.state)
        && resizeHandle == SelectedHandle(old(history.state), p, handleSize)
        && dragStartBounds == Some(SC.BoundsOf(old(history.state.sprites)[old(history.state.selected).value]))
      ensures !old(creating) && SelectedHandle(old(history.state), p, handleSize) == NoHandle ==>
        var hit := SR.TopmostAt(old(history.state.order), Rects(old(history.state.sprites)), p);
        && (IsSet(hit) ==> history.state.selected == hit && operationInProgress)
        && (IsSet(hit) ==> Grab(old(history.state.sprites)[hit.value], p, originRadius, draggingOrigin, dragStartOrigin,
                                draggingSprite, dragStartPosition, dragOffset, old(draggingOrigin), old(draggingSprite)))
        && (!IsSet(hit) ==> creating && startPos == Some(p) && history.state.selected == None)
    {
      if creating {
        return;
      }
      var s := history.state;
      var h := SelectedHandle(s, p, handleSize);
      if h != NoHandle {
        resizeHandle, resizing, operationInProgress := h, true, true;
        dragStartBounds := Some(SC.BoundsOf(s.sprites[s.selected.value]));
        return;
      }
      assert SR.Covers(s.order, Rects(s.sprites));
      var hit := SR.TopmostAt(s.order, Rects(s.sprites), p);
      StartAt(s, hit, p, originRadius);
    }

    /** The rest of `_handle_viewport_click` once no handle was grabbed. */
    method StartAt(s: Sheet, hit: Option<string>, p: (real, real), originRadius: int)
      requires Valid() && s == history.state
      requires hit.Some? ==> hit.value in s.sprites
      modifies this`operationInProgress, this`draggingOrigin, this`dragStartOrigin, this`draggingSprite,
        this`dragOffset, this`dragStartPosition, this`creating, this`startPos, history`state
      ensures Valid()
      ensures history.state.sprites == s.sprites && history.state.order == s.order
      ensures IsSet(hit) ==> history.state.selected == hit && operationInProgress
      ensures IsSet(hit) ==> Grab(old(history.state.sprites)[hit.value], p, originRadius, draggingOrigin, dragStartOrigin,
                                  draggingSprite, dragStartPosition, dragOffset, old(draggingOrigin), old(draggingSprite))
      ensures !IsSet(hit) ==> creating && startPos == Some(p) && history.state.selected == None
    {
      if IsSet(hit) {
        var v := s.sprites[hit.value];
        history.state := s.(selected := hit);
        operationInProgress := true;
        if SR.MarkerHit(SC.BoundsOf(v), v.originX, v.originY, p, originRadius) {
          draggingOrigin := true;
          dragStartOrigin := Some((v.originX, v.originY));
        } else {
          dragOffset := (p.0 - v.x as real, p.1 - v.y as real);
          draggingSprite := true;
          dragStartPosition := Some((v.x, v.y));
        }
      } else {
        creating := true;
        startPos := Some(p);
        history.state := s.(selected := None);
      }
    }

    /** `_update_sprite_creation`: with a sheet loaded, the pending rectangle
        follows the mouse and stays on the sheet. */
    method UpdateSpriteCreation(p: (real, real))
      modifies this`tempRect
      ensures startPos.Some? && sheetSize.Some? ==> tempRect == Some(SR.CreationRect(startPos.value, p, sheetSize.value))
      ensures !(startPos.Some? && sheetSize.Some?) ==> tempRect == old(tempRect)
      ensures startPos.Some? && sheetSize.Some? ==>
        tempRect.value.x + tempRect.value.width <= sheetSize.value.0 && tempRect.value.y + tempRect.value.height <= sheetSize.value.1
    {
      if startPos.Some? && sheetSize.Some? {
        tempRect := Some(SR.CreationRect(startPos.value, p, sheetSize.value));
      }
    }

    /** `_update_sprite_resize`: the selected sprite takes the bounds computed
        from the bounds at the start of the drag; it stays at least 5 wide
        and high. */
    method UpdateSpriteResize(p: (real, real))
      requires Valid()
      modifies history`state
      ensures Valid()
      ensures !(Chosen(old(history.state)) && dragStartBounds.Some?) ==> history.state == old(history.state)
      ensures Chosen(old(history.state)) && dragStartBounds.Some? ==>
        var n := old(history.state.selected).value;
        && history.state == Retouch(old(history.state), n,
             SC.WithBounds(old(history.state.sprites)[n], SR.ResizeBounds(dragStartBounds.value, resizeHandle, p, sheetSize)))
        && history.state.sprites[n].width >= 5 && history.state.sprites[n].height >= 5
    {
      var s := history.state;
      if Chosen(s) && dragStartBounds.Some? {
        var n := s.selected.value;
        history.state := Retouch(s, n, SC.WithBounds(s.sprites[n], SR.ResizeBounds(dragStartBounds.value, resizeHandle, p, sheetSize)));
      }
    }

    /** `_update_sprite_drag`: the selected sprite's top-left corner follows
        the mouse minus the grab offset, kept on the sheet. */
    method UpdateSpriteDrag(p: (real, real))
      requires Valid()
      modifies history`state
      ensures Valid()
      ensures !Chosen(old(history.state)) ==> history.state == old(history.state)
      ensures Chosen(old(history.state)) ==>
        var n := old(history.state.selected).value; var v := old(history.state.sprites)[n];
        && history.state == Retouch(old(history.state), n,
             v.(x := SR.DragAxis(p.0, dragOffset.0, v.width, SR.SheetW(sheetSize)),
                y := SR.DragAxis(p.1, dragOffset.1, v.height, SR.SheetH(sheetSize))))
        && (sheetSize.Some? && v.width <= sheetSize.value.0 ==> 0 <= history.state.sprites[n].x <= sheetSize.value.0 - v.width)
        && (sheetSize.Some? && v.height <= sheetSize.value.1 ==> 0 <= history.state.sprites[n].y <= sheetSize.value.1 - v.height)
    {
      var s := history.state;
      if Chosen(s) {
        var n := s.selected.value;
        var v := s.sprites[n];
        history.state := Retouch(s, n, v.(x := SR.DragAxis(p.0, dragOffset.0, v.width, SR.SheetW(sheetSize)),
                                          y := SR.DragAxis(p.1, dragOffset.1, v.height, SR.SheetH(sheetSize))));
      }
    }

    /** `_update_origin_drag`: the selected sprite's origin is the mouse's
        place across the sprite, within [0, 1]. */
    method UpdateOriginDrag(p: (real, real))
      requires Valid()
      modifies history`state
      ensures Valid()
      ensures !Chosen(old(history.state)) ==> history.state == old(history.state)
      ensures Chosen(old(history.state)) ==>
        var n := old(history.state.selected).value; var v := old(history.state.sprites)[n];
        && history.state == Retouch(old(history.state), n,
             v.(originX := SR.MarkerAxis(p.0, v.x, v.width), originY := SR.MarkerAxis(p.1, v.y, v.height)))
        && 0.0 <= history.state.sprites[n].originX <= 1.0 && 0.0 <= history.state.sprites[n].originY <= 1.0
    {
      var s := history.state;
      if Chosen(s) {
        var n := s.selected.value;
        var v := s.sprites[n];
        history.state := Retouch(s, n, v.(originX := SR.MarkerAxis(p.0, v.x, v.width), originY := SR.MarkerAxis(p.1, v.y, v.height)));
      }
    }

    /** `_complete_current_operation`: a finished resize, move or origin
        drag of the selected sprite is recorded, without being run again,
        when it changed the sprite; the operation's start data is cleared.
        A selected id that is gone counts as nothing selected, where the
        source's dictionary read raises `KeyError`. */
    method CompleteCurrentOperation()
      requires Valid()
      modifies this`operationInProgress, this`dragStartBounds, this`dragStartPosition, this`dragStartOrigin,
        history`undoStack, history`redoStack
      ensures Valid() && history.state == old(history.state)
      ensures !(old(operationInProgress) && Chosen(history.state)) ==>
        history.undoStack == old(history.undoStack) && operationInProgress == old(operationInProgress)
      ensures old(operationInProgress) && Chosen(history.state) ==>
        var r := OperationRecord(history.state, resizing, draggingSprite, draggingOrigin,
                                 old(dragStartBounds), old(dragStartPosition), old(dragStartOrigin));
        && history.undoStack == old(history.undoStack) + (if r.Some? then [r.value] else [])
        && (r.Some? ==> history.redoStack == [])
        && !operationInProgress && dragStartBounds == None && dragStartPosition == None && dragStartOrigin == None
    {
      if !operationInProgress || !Chosen(history.state) {
        return;
      }
      var r := OperationRecord(history.state, resizing, draggingSprite, draggingOrigin,
                               dragStartBounds, dragStartPosition, dragStartOrigin);
      if r.Some? {
        history.RecordPerformed(r.value);
      }
      operationInProgress := false;
      dragStartBounds, dragStartPosition, dragStartOrigin := None, None, None;
    }

    /** `_handle_mouse_up` (left button): the operation is recorded, a
        pending rectangle more than 5 wide and high becomes a new sprite,
        and every drag mode ends. */
    method MouseUp()
      requires Valid()
      modifies this`operationInProgress, this`dragStartBounds, this`dragStartPosition, this`dragStartOrigin,
        this`creating, this`tempRect, this`draggingOrigin, this`draggingSprite, this`resizing, this`resizeHandle,
        history`state, history`undoStack, history`redoStack
      ensures Valid()
      ensures !creating && !draggingOrigin && !draggingSprite && !resizing && resizeHandle == NoHandle
      ensures old(creating) && old(tempRect).Some? && SR.BigEnough(old(tempRect).value) ==>
        && history.state.selected.Some?
        && history.state.selected.value !in old(history.state.sprites)
        && history.state.sprites == old(history.state.sprites)[history.state.selected.value :=
             NewSprite(history.state.selected.value, old(tempRect).value)]
      ensures !(old(creating) && old(tempRect).Some? && SR.BigEnough(old(tempRect).value)) ==> history.state == old(history.state)
      ensures var r := if old(operationInProgress) && Chosen(old(history.state))
                       then OperationRecord(old(history.state), old(resizing), old(draggingSprite), old(draggingOrigin),
                                            old(dragStartBounds), old(dragStartPosition), old(dragStartOrigin))
                       else None;
        var u := old(history.undoStack) + (if r.Some? then [r.value] else []);
        if old(creating) && old(tempRect).Some? && SR.BigEnough(old(tempRect).value) then
          var n := history.state.selected.value;
          history.undoStack == UndoRedo.Trim(u + [Add(SC.Create(n, NewSprite(n, old(tempRect).value)))], 50)
        else history.undoStack == u
    {
      ghost var r := if operationInProgress && Chosen(history.state)
        then OperationRecord(history.state, resizing, draggingSprite, draggingOrigin,
                             dragStartBounds, dragStartPosition, dragStartOrigin)
        else None;
      CompleteCurrentOperation();
      assert history.undoStack == old(history.undoStack) + (if r.Some? then [r.value] else []);
      FinishCreation();
      creating, draggingOrigin, draggingSprite, resizing := false, false, false, false;
      resizeHandle := NoHandle;
    }

    /** The creation step of `_handle_mouse_up`: a pending rectangle more
        than 5 wide and high becomes a new sprite, and the rectangle is
        dropped. */
    method FinishCreation()
      requires Valid()
      modifies this`tempRect, history`state, history`undoStack, history`redoStack
      ensures Valid()
      ensures creating && old(tempRect).Some? ==> tempRect == None
      ensures !(creating && old(tempRect).Some?) ==> tempRect == old(tempRect)
      ensures creating && old(tempRect).Some? && SR.BigEnough(old(tempRect).value) ==> history.state.selected.Some?
      ensures creating && old(tempRect).Some? && SR.BigEnough(old(tempRect).value) ==>
        var n := history.state.selected.value;
        && n !in old(history.state.sprites)
        && history.state.sprites == old(history.state.sprites)[n := NewSprite(n, old(tempRect).value)]
        && history.undoStack == UndoRedo.Trim(old(history.undoStack) + [Add(SC.Create(n, NewSprite(n, old(tempRect).value)))], 50)
      ensures !(creating && old(tempRect).Some? && SR.BigEnough(old(tempRect).value)) ==>
        history.state == old(history.state) && history.undoStack == old(history.undoStack)
    {
      if creating && tempRect.Some? {
        if SR.BigEnough(tempRect.value) {
          var _ := CreateAtBounds(tempRect.value);
        }
        tempRect := None;
      }
    }
  }

  // ----- clearing and dictionary identity -------------------------------------

  /** The dictionaries as Python objects: `dicts[live]` is the one bound to
      `editor.sprites`. `CreateSpriteCommand` keeps the dictionary object it
      was given; `ClearSpritesCommand` empties the live dictionary in place
      but its undo binds `editor.sprites` to a fresh copy. */
  datatype Objects = Objects(dicts: seq<Sprites>, live: nat)

  datatype BoundEdit = AddTo(dict: nat, create: SC.Create<SpriteRect>) | ClearLive(saved: Sprites)

  function BoundExec(e: BoundEdit, h: Objects): Objects
    requires h.live < |h.dicts| && (e.AddTo? ==> e.dict < |h.dicts|)
  {
    match e
    case AddTo(d, c) => h.(dicts := h.dicts[d := SC.CreateExecute(c, h.dicts[d])])
    case ClearLive(_) => h.(dicts := h.dicts[h.live := map[]])
  }

  function BoundUnexec(e: BoundEdit, h: Objects): Objects
    requires h.live < |h.dicts| && (e.AddTo? ==> e.dict < |h.dicts|)
  {
    match e
    case AddTo(d, c) => h.(dicts := h.dicts[d := SC.CreateUndo(c, h.dicts[d])])
    case ClearLive(saved) => Objects(h.dicts + [saved], |h.dicts|)
  }

  /** Create "sprite_1" on an empty editor, clear all, undo the clear and
      undo the creation: the creation's undo deletes from the dictionary the
      clear emptied, not from the restored copy, so "sprite_1" is still in
      the editor. */
  lemma ClearUndoKeepsCreated(r: SpriteRect)
    ensures var h0 := Objects([map[]], 0);
      var add := AddTo(0, SC.Create("sprite_1", r));
      var h1 := BoundExec(add, h0);
      var clear := ClearLive(h1.dicts[h1.live]);
      var h2 := BoundExec(clear, h1);
      var h3 := BoundUnexec(clear, h2);
      var h4 := BoundUnexec(add, h3);
      h4.live < |h4.dicts| && "sprite_1" in h4.dicts[h4.live] && h0.dicts[h0.live] == map[]
  {
  }

  /** The model above keeps one dictionary: the same four steps give back
      the empty editor. */
  lemma ClearUndoThenCreateUndo(s: Sheet, c: SC.Create<SpriteRect>)
    requires Ordered(s) && c.key !in s.sprites
    ensures var s1 := Exec(Add(c), s);
      Unexec(Add(c), Unexec(ClearAll(s1), Exec(ClearAll(s1), s1))) == s
  {
    var s1 := Exec(Add(c), s);
    assert Unexec(ClearAll(s1), Exec(ClearAll(s1), s1)) == s1;
    AddUndo(s, c);
  }
}
