/** The bone sheet editor of pyspine/PySpine_BoneEditor.py (its GUI twin
    pyspine/old_pyspine/Editor_BoneSheet.py follows the same rules).

    The editor's bone dictionary and selected bone together are the state
    `Sheet` that its `UndoRedoManager` commands edit: the bone commands act
    on one bone by name, and `ClearBonesCommand` snapshots and restores both
    parts. The move, rotate and attachment commands carry the editor's
    repositioning callback, as in the source: after changing the bone they
    run `_update_child_bone_positions` or `_update_bone_attachment_position`
    (module BonePlacement) on it. The pixel geometry (hit distances, the
    drag vector's length and angle, a bone's end point) is computed outside
    and passed in. */
module BoneEditor {
  import opened Types
  import UndoRedo
  import Names
  import BC = BoneCommands
  import BP = BonePlacement
  import opened BoneHierarchy
  import opened BoneQueries
  import opened KeyframeOrder

  /** What the editor's commands act on: `self.bones` and `self.selected_bone`. */
  datatype Sheet = Sheet(bones: Bones, selected: Option<string>)

  /** The commands the editor puts on its undo stack. The one-bone commands
      hold the bone's name; in the source they hold the bone object itself.
      `tip` is the end-point computation the repositioning callback uses. */
  datatype Edit =
    | Layer(name: string, layer: BC.ChangeLayer)
    | Attach(name: string, attach: BC.ChangeAttachment, tip: BP.EndPoint)
    | Rotate(name: string, rotate: BC.RotateBone, tip: BP.EndPoint)
    | Move(name: string, move: BC.MoveBone, tip: BP.EndPoint)
    | Remove(delete: BC.DeleteBone)
    | ClearAll(oldBones: Bones, oldSelected: Option<string>)
    | Add(create: BC.CreateBone)

  /** Replaces the bone stored under `n`, when there is one. */
  function SetBone(s: Sheet, n: string, b: Bone): Sheet {
    if n in s.bones then s.(bones := s.bones[n := b]) else s
  }

  function Exec(e: Edit, s: Sheet): Sheet {
    match e
    case Layer(n, c) => if n in s.bones then SetBone(s, n, BC.LayerExecute(c, s.bones[n])) else s
    case Attach(n, c, tip) =>
      if n in s.bones then s.(bones := BP.Realign(s.bones[n := BC.AttachmentExecute(c, s.bones[n])], n, tip)) else s
    case Rotate(n, c, tip) =>
      if n in s.bones then s.(bones := BP.Reposition(s.bones[n := BC.RotateExecute(c, s.bones[n])], n, tip)) else s
    case Move(n, c, tip) =>
      if n in s.bones then s.(bones := BP.Reposition(s.bones[n := BC.MoveExecute(c, s.bones[n])], n, tip)) else s
    case Remove(c) => s.(bones := BC.DeleteExecute(c, s.bones))
    case ClearAll(_, _) => Sheet(map[], None)
    case Add(c) => s.(bones := BC.CreateExecute(c, s.bones))
  }

  function Unexec(e: Edit, s: Sheet): Sheet {
    match e
    case Layer(n, c) => if n in s.bones then SetBone(s, n, BC.LayerUndo(c, s.bones[n])) else s
    case Attach(n, c, tip) =>
      if n in s.bones then s.(bones := BP.Realign(s.bones[n := BC.AttachmentUndo(c, s.bones[n])], n, tip)) else s
    case Rotate(n, c, tip) =>
      if n in s.bones then s.(bones := BP.Reposition(s.bones[n := BC.RotateUndo(c, s.bones[n])], n, tip)) else s
    case Move(n, c, tip) =>
      if n in s.bones then s.(bones := BP.Reposition(s.bones[n := BC.MoveUndo(c, s.bones[n])], n, tip)) else s
    case Remove(c) => s.(bones := BC.DeleteUndo(c, s.bones))
    case ClearAll(b, sel) => Sheet(b, sel)
    case Add(c) => s.(bones := BC.CreateUndo(c, s.bones))
  }

  /** `ClearBonesCommand`: execute empties the bones and the selection, and
      undo gives back the dictionary and selection seen at construction. */
  lemma ClearRoundTrip(s: Sheet)
    ensures var e := ClearAll(s.bones, s.selected);
      && Exec(e, s).bones == map[] && Exec(e, s).selected == None
      && Unexec(e, Exec(e, s)) == s
  {
  }

  /** `if self.selected_bone and self.selected_bone in self.bones`. */
  predicate SelectedBone(s: Sheet) {
    IsSet(s.selected) && s.selected.value in s.bones
  }

  // ----- Layer and attachment commands ----------------------------------------

  /** `_set_bone_layer_behind/middle/front`: a command only when the
      selected bone is on another layer; its order is kept. */
  function LayerEdit(s: Sheet, target: BoneLayer): (r: Option<Edit>)
    ensures r.Some? <==> SelectedBone(s) && s.bones[s.selected.value].layer != target
    ensures r.Some? ==> var n := s.selected.value;
      && Exec(r.value, s) == s.(bones := s.bones[n := s.bones[n].(layer := target)])
      && Unexec(r.value, Exec(r.value, s)) == s
  {
    if SelectedBone(s) && s.bones[s.selected.value].layer != target then
      var b := s.bones[s.selected.value];
      Some(Layer(s.selected.value, BC.ChangeLayer(b.layer, target, b.layerOrder, b.layerOrder)))
    else None
  }

  /** `_cycle_bone_layer`: always a command when a bone is selected, moving
      it to the next layer of BEHIND -> MIDDLE -> FRONT -> BEHIND. */
  function CycleLayerEdit(s: Sheet): (r: Option<Edit>)
    ensures r.Some? <==> SelectedBone(s)
    ensures r.Some? ==> var n := s.selected.value;
      && Exec(r.value, s) == s.(bones := s.bones[n := s.bones[n].(layer := NextLayer(s.bones[n].layer))])
      && Unexec(r.value, Exec(r.value, s)) == s
  {
    if SelectedBone(s) then
      var b := s.bones[s.selected.value];
      Some(Layer(s.selected.value, BC.ChangeLayer(b.layer, NextLayer(b.layer), b.layerOrder, b.layerOrder)))
    else None
  }

  /** `_increase_layer_order`: always one more. */
  function IncreaseOrderEdit(s: Sheet): (r: Option<Edit>)
    ensures r.Some? <==> SelectedBone(s)
    ensures r.Some? ==> var n := s.selected.value;
      && Exec(r.value, s) == s.(bones := s.bones[n := s.bones[n].(layerOrder := s.bones[n].layerOrder + 1)])
      && Unexec(r.value, Exec(r.value, s)) == s
  {
    if SelectedBone(s) then
      var b := s.bones[s.selected.value];
      Some(Layer(s.selected.value, BC.ChangeLayer(b.layer, b.layer, b.layerOrder, b.layerOrder + 1)))
    else None
  }

  /** `_decrease_layer_order`: one less but never below 0, and a command
      only when the order changes (so never at order 0). */
  function DecreaseOrderEdit(s: Sheet): (r: Option<Edit>)
    ensures r.Some? <==> SelectedBone(s) && s.bones[s.selected.value].layerOrder != 0
    ensures r.Some? ==> var n := s.selected.value; var o := s.bones[n].layerOrder;
      && Exec(r.value, s) == s.(bones := s.bones[n := s.bones[n].(layerOrder := if o > 0 then o - 1 else 0)])
      && Exec(r.value, s).bones[n].layerOrder >= 0
      && Unexec(r.value, Exec(r.value, s)) == s
  {
    if SelectedBone(s) then
      var b := s.bones[s.selected.value];
      var newOrder := MaxI(0, b.layerOrder - 1);
      if newOrder != b.layerOrder then
        Some(Layer(s.selected.value, BC.ChangeLayer(b.layer, b.layer, b.layerOrder, newOrder)))
      else None
    else None
  }

  /** `_toggle_attachment_point`: only a bone with a parent, flipping
      START and END; the command then re-attaches the bone to its parent
      (`_update_bone_attachment_position`). */
  function ToggleEdit(s: Sheet, tip: BP.EndPoint): (r: Option<Edit>)
    ensures r.Some? <==> SelectedBone(s) && IsSet(s.bones[s.selected.value].parent)
    ensures r.Some? ==> var n := s.selected.value; var p := s.bones[n].parentAttachmentPoint;
      Exec(r.value, s) ==
        s.(bones := BP.Realign(s.bones[n := s.bones[n].(parentAttachmentPoint := if p == End then Start else End)], n, tip))
  {
    if SelectedBone(s) && IsSet(s.bones[s.selected.value].parent) then
      var b := s.bones[s.selected.value];
      Some(Attach(s.selected.value, BC.ChangeAttachment(b.parentAttachmentPoint, if b.parentAttachmentPoint == End then Start else End), tip))
    else None
  }

  /** The toggled bone has the other attachment point and otherwise its old
      shape, and only it and its subtree move. Re-linked to a parent bone
      outside its subtree, it sits on the new attachment point, and undo
      re-attaches it at the old one: the sheet the toggle started from,
      once that was itself attached. */
  lemma ToggleRoundTrip(s: Sheet, tip: BP.EndPoint)
    requires ToggleEdit(s, tip).Some?
    ensures var e := ToggleEdit(s, tip).value; var n := s.selected.value;
      var b := s.bones[n]; var t := Exec(e, s).bones; var q := b.parent.value;
      var sub := BP.Subtree(s.bones, n);
      && t.Keys == s.bones.Keys
      && t[n].parentAttachmentPoint != b.parentAttachmentPoint
      && BP.Frame(t[n]) == BP.Frame(b).(parentAttachmentPoint := t[n].parentAttachmentPoint)
      && (forall k :: k in s.bones && k != n && k !in sub ==> t[k] == s.bones[k])
      && (q !in s.bones ==> Unexec(e, Exec(e, s)) == s)
      && (q in s.bones && q != n && q !in sub ==>
            && Unexec(e, Exec(e, s)) == s.(bones := BP.Realign(s.bones, n, tip))
            && (n !in sub ==> (t[n].x, t[n].y) == BP.AttachPoint(s.bones[q], t[n].parentAttachmentPoint, tip)))
  {
    var e := ToggleEdit(s, tip).value;
    var n := s.selected.value;
    var d := s.bones;
    var b := d[n];
    var flipped := b.(parentAttachmentPoint := if b.parentAttachmentPoint == End then Start else End);
    var t := BP.Realign(d[n := flipped], n, tip);
    assert Exec(e, s).bones == t && |d[n := flipped]| == |d|;
    BP.ReattachChanged(d, n, flipped, tip, |d|);
    assert t[n].parentAttachmentPoint == BP.Frame(t[n]).parentAttachmentPoint;
    var c := t[n].(parentAttachmentPoint := b.parentAttachmentPoint);
    assert Unexec(e, Exec(e, s)).bones == BP.Realign(t[n := c], n, tip) && |t[n := c]| == |d|;
    if b.parent.value in d && b.parent.value != n && b.parent.value !in BP.Subtree(d, n) {
      BP.ReattachTwice(d, n, flipped, c, tip, |d|);
    } else if b.parent.value !in d {
      assert t[n := c] == d;
      BP.ReattachPlaces(d, n, tip, |d|);
    }
  }

  // ----- Drag recording -------------------------------------------------------

  /** The command `_complete_current_operation` records for the selected
      bone after a drag that is already applied: a rotate/resize after an
      endpoint drag, a move after a start or body drag, and only when some
      value moved by more than 0.1. Undoing it gives back the values seen
      when the drag began and repositions the bone's subtree. */
  function DragRecord(s: Sheet, draggingEnd: bool, draggingMove: bool,
                      angleLength: Option<(real, real)>, position: Option<(real, real)>,
                      tip: BP.EndPoint): (r: Option<Edit>)
    requires SelectedBone(s)
    ensures var b := s.bones[s.selected.value];
      r.Some? <==>
        if draggingEnd && angleLength.Some? then
          Abs(angleLength.value.0 - b.angle) > 0.1 || Abs(angleLength.value.1 - b.length) > 0.1
        else
          draggingMove && position.Some? &&
          (Abs(position.value.0 - b.x) > 0.1 || Abs(position.value.1 - b.y) > 0.1)
    ensures r.Some? && draggingEnd && angleLength.Some? ==>
      var n := s.selected.value;
      Unexec(r.value, s) ==
        s.(bones := BP.Reposition(s.bones[n := s.bones[n].(angle := angleLength.value.0, length := angleLength.value.1)], n, tip))
    ensures r.Some? && !(draggingEnd && angleLength.Some?) ==>
      var n := s.selected.value;
      Unexec(r.value, s) ==
        s.(bones := BP.Reposition(s.bones[n := s.bones[n].(x := position.value.0, y := position.value.1)], n, tip))
  {
    var n := s.selected.value;
    var b := s.bones[n];
    if draggingEnd && angleLength.Some? then
      var (oldAngle, oldLength) := angleLength.value;
      if Abs(oldAngle - b.angle) > 0.1 || Abs(oldLength - b.length) > 0.1 then
        Some(Rotate(n, BC.NewRotateBone(b, oldAngle, b.angle, Some(oldLength), Some(b.length)), tip))
      else None
    else if draggingMove && position.Some? then
      var (oldX, oldY) := position.value;
      if Abs(oldX - b.x) > 0.1 || Abs(oldY - b.y) > 0.1 then
        Some(Move(n, BC.MoveBone(oldX, oldY, b.x, b.y), tip))
      else None
    else None
  }

  /** Redoing a recorded drag after undoing it gives back the sheet with
      the bone's subtree repositioned, which is the dragged sheet itself
      when the drag left it positioned (`DragSettles`). */
  lemma DragRedo(s: Sheet, draggingEnd: bool, draggingMove: bool,
                 angleLength: Option<(real, real)>, position: Option<(real, real)>, tip: BP.EndPoint)
    requires SelectedBone(s) && s.selected.value !in BP.Subtree(s.bones, s.selected.value)
    ensures var r := DragRecord(s, draggingEnd, draggingMove, angleLength, position, tip);
      r.Some? ==> Exec(r.value, Unexec(r.value, s)) == s.(bones := BP.Reposition(s.bones, s.selected.value, tip))
  {
    var r := DragRecord(s, draggingEnd, draggingMove, angleLength, position, tip);
    if r.Some? {
      var n := s.selected.value;
      var b := s.bones[n];
      var b0 := if draggingEnd && angleLength.Some? then b.(angle := angleLength.value.0, length := angleLength.value.1)
                else b.(x := position.value.0, y := position.value.1);
      var d0 := s.bones[n := b0];
      var u := BP.Reposition(d0, n, tip);
      assert Unexec(r.value, s).bones == u;
      assert BP.Reach(BP.Children(d0), n, |d0|) == BP.Subtree(s.bones, n) && |d0| == |s.bones| by {
        BP.SameChildren(s.bones, n, b0);
      }
      assert u[n] == b0 by {
        BP.FollowShape(d0, n, tip, |d0|);
      }
      assert d0[n := b] == s.bones;
      assert |u| == |d0|;
      BP.FollowAfterFollow(d0, n, b, tip, |d0|);
    }
  }

  /** A bone outside its own subtree, once its subtree is repositioned,
      stays put under another repositioning: after any drag the sheet is
      positioned. */
  lemma DragSettles(d: Bones, n: string, tip: BP.EndPoint)
    requires n !in BP.Subtree(d, n)
    ensures BP.Reposition(BP.Reposition(d, n, tip), n, tip) == BP.Reposition(d, n, tip)
  {
    assert |BP.Reposition(d, n, tip)| == |d|;
    BP.FollowIdempotent(d, n, tip, |d|);
  }

  /** After a bone is dragged, each child that is a bone sits where it
      attaches on the dragged bone (its start or its end), when the
      children lists below form a tree. */
  lemma DragCarriesChildren(d: Bones, n: string, b: Bone, tip: BP.EndPoint)
    requires n in d && b.children == d[n].children && n !in BP.Subtree(d, n)
    requires BP.Untangled(BP.Children(d), b.children, |d| - 1)
    ensures var r := BP.Reposition(d[n := b], n, tip);
      && r[n] == b
      && forall c :: c in b.children && c in d ==>
           (r[c].x, r[c].y) == BP.AttachPoint(b, d[c].parentAttachmentPoint, tip)
  {
    var e := d[n := b];
    BP.SameChildren(d, n, b);
    assert |e| == |d|;
    BP.FollowPlacesChildren(e, n, tip, |d|);
    forall c | c in b.children && c in d ensures c != n {
      BP.KidReached(BP.Children(d), b.children, c, |d| - 1);
    }
  }

  /** `_update_bone_end_drag`: a drag to a point closer than 5 to the start
      is ignored, so a bone longer than 5 stays longer than 5. */
  function EndDragged(b: Bone, newLength: real, newAngle: real): (r: Bone)
    ensures newLength > 5.0 ==> r.length == newLength && r.angle == newAngle
    ensures newLength <= 5.0 ==> r == b
    ensures r.(length := b.length, angle := b.angle) == b
    ensures b.length > 5.0 ==> r.length > 5.0
  {
    if newLength > 5.0 then b.(length := newLength, angle := newAngle) else b
  }

  /** `_update_bone_body_drag` places the bone at the cursor minus the
      offset taken at the click; at the click point itself the bone stays
      where it was. */
  function BodyDragged(b: Bone, offset: (real, real), p: (real, real)): (r: Bone)
    ensures r.(x := b.x, y := b.y) == b
    ensures p == (b.x + offset.0, b.y + offset.1) ==> r == b
  {
    b.(x := p.0 - offset.0, y := p.1 - offset.1)
  }

  // ----- Creation -------------------------------------------------------------

  /** After `CreateBoneCommand` has run, a new bone whose parent is a bone
      is already listed among the parent's children, so the editor's own
      append that follows changes nothing. */
  lemma CreationAppendIsNoOp(d: Bones, bone: Bone)
    requires bone.name !in d
    requires IsSet(bone.parent) ==> bone.parent.value in d
    ensures var r := BC.CreateExecute(BC.CreateBone(bone), d);
      IsSet(bone.parent) ==>
        (bone.parent.value in r && bone.name in r[bone.parent.value].children
         && BC.AddChild(r, bone.parent.value, bone.name) == r)
  {
    var r := BC.CreateExecute(BC.CreateBone(bone), d);
    if IsSet(bone.parent) {
      var p := bone.parent.value;
      assert BC.HasParentIn(bone, d[bone.name := bone]);
      assert bone.name in r[p].children;
      assert AppendOnce(r[p].children, bone.name) == r[p].children;
      assert r[p := r[p].(children := r[p].children)] == r;
    }
  }

  /** Where a drop in the hierarchy panel puts the dragged bone. */
  datatype DropPosition = Before | After | Child

  /** The drop position from the cursor's offset to the target's row. */
  function PositionFor(rel: int): (p: DropPosition)
    ensures p == Before <==> rel < -4
    ensures p == After <==> rel > 4
    ensures p == Child <==> -4 <= rel <= 4
  {
    if rel < -4 then Before else if rel > 4 then After else Child
  }

  function IAbs(x: int): nat { if x < 0 then -x else x }

  /** A hierarchy panel row (bone name, row y) is under the cursor's y. */
  function Near(y: int): ((string, int)) -> bool {
    (item: (string, int)) => IAbs(y - item.1) < 12
  }

  /** The links a drop leaves, by position: a child of the target, or a
      sibling before or after it under the target's parent. */
  function DropLinks(bones: Bones, drag: string, target: string, p: DropPosition): (r: Bones)
    requires drag in bones && target in bones
    ensures SameLinksExcept(bones, r, drag)
    ensures r[drag].parent == if p == Child then Some(target) else bones[target].parent
  {
    match p
    case Child => DropAsChild(bones, drag, target)
    case Before => DropBeside(bones, drag, target, false)
    case After => DropBeside(bones, drag, target, true)
  }

  /** A dictionary of the same shape has the same parent links. */
  lemma ShapeLinks(d: Bones, e: Bones)
    requires BP.SameShape(d, e)
    ensures e.Keys == d.Keys && forall k :: k in e ==> e[k].parent == d[k].parent
  {
    forall k | k in e ensures e[k].parent == d[k].parent {
      BP.ShapeAt(d, e, k);
      assert e[k].parent == BP.Frame(e[k]).parent;
    }
  }

  /** The result of a drop: the new links, then the dragged bone re-attached
      to its new parent when that is a bone. */
  function Dropped(bones: Bones, drag: string, target: string, p: DropPosition, tip: BP.EndPoint): (r: Bones)
    requires drag in bones && target in bones
    ensures r.Keys == bones.Keys
  {
    BP.Realign(DropLinks(bones, drag, target, p), drag, tip)
  }

  /** A drop re-links the dragged bone alone, to the target or beside it.
      Only the dragged bone and its subtree move, and re-linked to a parent
      bone outside its subtree the dragged bone sits on its attachment
      point. */
  lemma DropPlaces(bones: Bones, drag: string, target: string, p: DropPosition, tip: BP.EndPoint)
    requires drag in bones && target in bones
    ensures var links := DropLinks(bones, drag, target, p); var q := links[drag].parent;
      var r := Dropped(bones, drag, target, p, tip);
      && SameLinksExcept(bones, r, drag)
      && r[drag].parent == (if p == Child then Some(target) else bones[target].parent)
      && BP.SameShape(links, r)
      && (forall k :: k in links && k != drag && k !in BP.Subtree(links, drag) ==> r[k] == links[k])
      && (IsSet(q) && q.value in links && q.value != drag && q.value !in BP.Subtree(links, drag)
          && drag !in BP.Subtree(links, drag) ==>
            (r[drag].x, r[drag].y) == BP.AttachPoint(links[q.value], links[drag].parentAttachmentPoint, tip))
  {
    var links := DropLinks(bones, drag, target, p);
    BP.ReattachPlaces(links, drag, tip, |links|);
    ShapeLinks(links, Dropped(bones, drag, target, p, tip));
  }

  /** A drop onto a target outside the dragged bone's subtree keeps the
      parent chains finite. */
  lemma DropAcyclic(bones: Bones, drag: string, target: string, p: DropPosition, tip: BP.EndPoint, n: nat)
    requires Acyclic(bones, n) && drag in bones && target in bones
    requires target != drag && !Below(bones, target, drag)
    ensures Acyclic(Dropped(bones, drag, target, p, tip), 2 * n + 1)
  {
    var links := DropLinks(bones, drag, target, p);
    var r := Dropped(bones, drag, target, p, tip);
    assert Acyclic(links, 2 * n + 1) by {
      DropKeepsAcyclic(bones, drag, target, p == After, n);
    }
    assert r.Keys == links.Keys && forall k :: k in r ==> r[k].parent == links[k].parent by {
      DropPlaces(bones, drag, target, p, tip);
      ShapeLinks(links, r);
    }
    SameLinksAcyclic(links, r, 2 * n + 1);
  }

  /** What releasing the left button does to the sheet and the undo stack
      before a hierarchy drop: the drag's command `record`, if any, goes on
      the undo stack; then, when `create` holds the press point of a bone
      being drawn, a bone with a name no bone has starts there with the
      dragged `length` and `angle`, attached as `attach` says, its creation
      is pushed within the limit of 50 and it becomes the selection. */
  ghost predicate Released(s: Sheet, undo: seq<Edit>, record: Option<Edit>, create: Option<(real, real)>,
                           length: real, angle: real, attach: Option<(string, AttachmentPoint)>,
                           s': Sheet, undo': seq<Edit>)
  {
    var u := if record.Some? then undo + [record.value] else undo;
    if create.None? then s' == s && undo' == u
    else
      && IsSet(s'.selected) && s'.selected.value !in s.bones
      && var bone := Bone(s'.selected.value, create.value.0, create.value.1, length, angle,
                          if attach.Some? then Some(attach.value.0) else None,
                          if attach.Some? then attach.value.1 else End);
      && s'.bones == BC.CreateExecute(BC.CreateBone(bone), s.bones)
      && undo' == UndoRedo.Trim(u + [Add(BC.CreateBone(bone))], 50)
  }

  /** What `_complete_hierarchy_drag` does to the sheet `s`, given the drag
      flag, the dragged bone, the drop target and the drop position: with
      all three set, both bones exist and `s'` is the drop; otherwise
      nothing changes. */
  ghost predicate DropDone(s: Sheet, s': Sheet, dragging: bool, drag: Option<string>, target: Option<string>,
                           p: DropPosition, tip: BP.EndPoint)
  {
    if dragging && IsSet(drag) && IsSet(target) then
      && drag.value in s.bones && target.value in s.bones
      && s' == s.(bones := Dropped(s.bones, drag.value, target.value, p, tip))
    else s' == s
  }

  /** The editor (`BoneSheetEditor`) with its command history and the
      fields of its mouse handling. */
  class BoneSheetEditor {
    const history: UndoRedo.UndoRedoManager<Sheet, Edit>
    /** The end point of a bone, which the repositioning uses. */
    const tip: BP.EndPoint
    var bonesAtCursor: seq<Hit>
    var cycleIndex: int
    var lastClick: Option<(int, int)>
    var operationInProgress: bool
    var draggingStart: bool
    var draggingEnd: bool
    var draggingBody: bool
    var dragOffset: (real, real)
    var dragStartPosition: Option<(real, real)>
    var dragStartAngleLength: Option<(real, real)>
    var creatingBone: bool
    var boneStartPos: Option<(real, real)>
    var draggingHierarchy: bool
    var hierarchyDragBone: Option<string>
    var dropTarget: Option<string>
    var dropPosition: DropPosition

    /** The history runs the editor's commands with the limit of 50, and the
        cycle index points into a non-empty hit list. The history's own
        bound is not kept: drag recording pushes past it. */
    ghost predicate Valid()
      reads this, history
    {
      && history.exec == Exec && history.unexec == Unexec
      && history.historyLimit == 50 && history.enabled
      && 0 <= cycleIndex && (bonesAtCursor != [] ==> cycleIndex < |bonesAtCursor|)
    }

    constructor (tip: BP.EndPoint)
      ensures Valid() && this.tip == tip
      ensures history.state == Sheet(map[], None) && history.undoStack == [] && history.redoStack == []
      ensures bonesAtCursor == [] && cycleIndex == 0 && lastClick == None
      ensures !operationInProgress && !draggingStart && !draggingEnd && !draggingBody && !creatingBone
      ensures !draggingHierarchy && hierarchyDragBone == None && dropTarget == None && dropPosition == Child
    {
      history := new UndoRedo.UndoRedoManager(Sheet(map[], None), Exec, Unexec);
      this.tip := tip;
      bonesAtCursor := [];
      cycleIndex := 0;
      lastClick := None;
      operationInProgress := false;
      draggingStart, draggingEnd, draggingBody := false, false, false;
      dragOffset := (0.0, 0.0);
      dragStartPosition, dragStartAngleLength := None, None;
      creatingBone, boneStartPos := false, None;
      draggingHierarchy, hierarchyDragBone, dropTarget := false, None, None;
      dropPosition := Child;
    }

    /** `execute_command` of an optional command. */
    method Issue(e: Option<Edit>)
      requires Valid()
      modifies history`state, history`undoStack, history`redoStack
      ensures Valid()
      ensures e.None? ==>
        (history.state == old(history.state)
         && history.undoStack == old(history.undoStack) && history.redoStack == old(history.redoStack))
      ensures e.Some? ==>
        (history.state == Exec(e.value, old(history.state))
         && history.redoStack == [] && history.undoStack == UndoRedo.Trim(old(history.undoStack) + [e.value], 50))
    {
      if e.Some? {
        history.ExecuteCommand(e.value);
      }
    }

    method SetLayer(target: BoneLayer)
      requires Valid()
      modifies history`state, history`undoStack, history`redoStack
      ensures Valid()
      ensures var e := LayerEdit(old(history.state), target);
        history.state == (if e.Some? then Exec(e.value, old(history.state)) else old(history.state))
        && (e.Some? ==> history.undoStack == UndoRedo.Trim(old(history.undoStack) + [e.value], 50))
        && (e.None? ==> history.undoStack == old(history.undoStack))
    {
      Issue(LayerEdit(history.state, target));
    }

    method CycleLayer()
      requires Valid()
      modifies history`state, history`undoStack, history`redoStack
      ensures Valid()
      ensures var e := CycleLayerEdit(old(history.state));
        history.state == (if e.Some? then Exec(e.value, old(history.state)) else old(history.state))
        && (e.Some? ==> history.undoStack == UndoRedo.Trim(old(history.undoStack) + [e.value], 50))
        && (e.None? ==> history.undoStack == old(history.undoStack))
    {
      Issue(CycleLayerEdit(history.state));
    }

    method IncreaseLayerOrder()
      requires Valid()
      modifies history`state, history`undoStack, history`redoStack
      ensures Valid()
      ensures var e := IncreaseOrderEdit(old(history.state));
        history.state == (if e.Some? then Exec(e.value, old(history.state)) else old(history.state))
        && (e.Some? ==> history.undoStack == UndoRedo.Trim(old(history.undoStack) + [e.value], 50))
        && (e.None? ==> history.undoStack == old(history.undoStack))
    {
      Issue(IncreaseOrderEdit(history.state));
    }

    method DecreaseLayerOrder()
      requires Valid()
      modifies history`state, history`undoStack, history`redoStack
      ensures Valid()
      ensures var e := DecreaseOrderEdit(old(history.state));
        history.state == (if e.Some? then Exec(e.value, old(history.state)) else old(history.state))
        && (e.Some? ==> history.undoStack == UndoRedo.Trim(old(history.undoStack) + [e.value], 50))
        && (e.None? ==> history.undoStack == old(history.undoStack))
    {
      Issue(DecreaseOrderEdit(history.state));
    }

    method ToggleAttachmentPoint()
      requires Valid()
      modifies history`state, history`undoStack, history`redoStack
      ensures Valid()
      ensures var e := ToggleEdit(old(history.state), tip);
        history.state == (if e.Some? then Exec(e.value, old(history.state)) else old(history.state))
        && (e.Some? ==> history.undoStack == UndoRedo.Trim(old(history.undoStack) + [e.value], 50))
        && (e.None? ==> history.undoStack == old(history.undoStack))
    {
      Issue(ToggleEdit(history.state, tip));
    }

    /** `_clear_all_bones`: a `ClearBonesCommand` only when there are bones. */
    method ClearAllBones()
      requires Valid()
      modifies history`state, history`undoStack, history`redoStack
      ensures Valid()
      ensures old(history.state.bones) == map[] ==> history.state == old(history.state) && history.undoStack == old(history.undoStack)
      ensures old(history.state.bones) != map[] ==>
        history.state == Sheet(map[], None)
        && history.undoStack == UndoRedo.Trim(old(history.undoStack) + [ClearAll(old(history.state.bones), old(history.state.selected))], 50)
    {
      if history.state.bones != map[] {
        Issue(Some(ClearAll(history.state.bones, history.state.selected)));
      }
    }

    /** `delete_selected`: a `DeleteBoneCommand` for the selected bone, then
        no selection. */
    method DeleteSelected()
      requires Valid()
      modifies history`state, history`undoStack, history`redoStack
      ensures Valid()
      ensures !SelectedBone(old(history.state)) ==> history.state == old(history.state) && history.undoStack == old(history.undoStack)
      ensures SelectedBone(old(history.state)) ==>
        var e := Remove(BC.NewDeleteBone(old(history.state.bones), old(history.state.selected.value)));
        history.state == Sheet(Exec(e, old(history.state)).bones, None)
        && history.undoStack == UndoRedo.Trim(old(history.undoStack) + [e], 50)
    {
      if SelectedBone(history.state) {
        Issue(Some(Remove(BC.NewDeleteBone(history.state.bones, history.state.selected.value))));
        history.state := history.state.(selected := None);
      }
    }

    /** `_get_next_bone_name`: "bone_k" for the smallest k >= 1 that no
        key "bone_<digits>" uses. */
    method NextBoneName() returns (name: string)
      ensures name !in history.state.bones
      ensures exists k: nat ::
        (k >= 1 && name == "bone_" + Names.Digits(k)
         && !Names.SuffixUsed(history.state.bones.Keys, "bone_", k)
         && forall j :: 1 <= j < k ==> Names.SuffixUsed(history.state.bones.Keys, "bone_", j))
    {
      var k;
      name, k := Names.NextFreeName(history.state.bones.Keys, "bone_");
    }

    /** The shared tail of `_create_bone_at_position` and
        `_complete_bone_creation`: a `CreateBoneCommand` for a bone with the
        next free name, attached where the attachment-point query found a
        bone (END otherwise), the editor's extra append to the parent's
        children, and the selection of the new bone. */
    method AddBone(x: real, y: real, length: real, angle: real, attach: Option<(string, AttachmentPoint)>)
      requires Valid()
      requires attach.Some? ==> attach.value.0 in history.state.bones
      modifies history`state, history`undoStack, history`redoStack
      ensures Valid()
      ensures IsSet(history.state.selected)
      ensures var name := history.state.selected.value;
        var bone := Bone(name, x, y, length, angle,
                         if attach.Some? then Some(attach.value.0) else None,
                         if attach.Some? then attach.value.1 else End);
        && name !in old(history.state.bones)
        && history.state.bones == BC.CreateExecute(BC.CreateBone(bone), old(history.state.bones))
        && name in history.state.bones && history.state.bones[name] == bone
        && history.undoStack == UndoRedo.Trim(old(history.undoStack) + [Add(BC.CreateBone(bone))], 50)
      ensures old(history.state.bones).Keys <= history.state.bones.Keys
      ensures |history.state.bones| == |old(history.state.bones)| + 1
    {
      var name := NextBoneName();
      assert name != "" by {
        var k: nat :| name == "bone_" + Names.Digits(k);
      }
      var parent := if attach.Some? then Some(attach.value.0) else None;
      var bone := Bone(name, x, y, length, angle, parent, if attach.Some? then attach.value.1 else End);
      ghost var d := history.state.bones;
      BC.CreateExecuteEffect(BC.CreateBone(bone), d);
      assert |d.Keys + {name}| == |d.Keys| + 1;
      Issue(Some(Add(BC.CreateBone(bone))));
      if IsSet(parent) && parent.value in history.state.bones {
        CreationAppendIsNoOp(d, bone);
        history.state := history.state.(bones := BC.AddChild(history.state.bones, parent.value, name));
      }
      history.state := history.state.(selected := Some(name));
    }

    /** `_create_bone_at_position`: a bone of length 50 and angle 0. */
    method CreateBoneAtPosition(x: real, y: real, attach: Option<(string, AttachmentPoint)>)
      requires Valid()
      requires attach.Some? ==> attach.value.0 in history.state.bones
      modifies history`state, history`undoStack, history`redoStack
      ensures Valid()
      ensures |history.state.bones| == |old(history.state.bones)| + 1
      ensures IsSet(history.state.selected) && history.state.selected.value !in old(history.state.bones)
      ensures history.state.selected.value in history.state.bones
        && history.state.bones[history.state.selected.value].length == 50.0
    {
      AddBone(x, y, 50.0, 0.0, attach);
    }

    /** `_complete_bone_creation`: with the release point inside the
        viewport and a dragged length above 10, a bone from the press point;
        the press point is forgotten either way. */
    method CompleteBoneCreation(inViewport: bool, length: real, angle: real, attach: Option<(string, AttachmentPoint)>)
      requires Valid()
      requires attach.Some? ==> attach.value.0 in history.state.bones
      modifies this`boneStartPos, history`state, history`undoStack, history`redoStack
      ensures Valid()
      ensures boneStartPos == None
      ensures old(history.state.bones).Keys <= history.state.bones.Keys
      ensures old(boneStartPos).None? || !inViewport || length <= 10.0 ==>
        history.state == old(history.state) && history.undoStack == old(history.undoStack)
      ensures Released(old(history.state), old(history.undoStack), None,
                       if inViewport && length > 10.0 then old(boneStartPos) else None,
                       length, angle, attach, history.state, history.undoStack)
      ensures old(boneStartPos).Some? && inViewport && length > 10.0 ==>
        |history.state.bones| == |old(history.state.bones)| + 1
        && IsSet(history.state.selected) && history.state.selected.value !in old(history.state.bones)
        && history.state.selected.value in history.state.bones
        && var b := history.state.bones[history.state.selected.value];
           b.x == old(boneStartPos).value.0 && b.y == old(boneStartPos).value.1 && b.length == length
    {
      if boneStartPos.Some? {
        if inViewport && length > 10.0 {
          AddBone(boneStartPos.value.0, boneStartPos.value.1, length, angle, attach);
        }
        boneStartPos := None;
      }
    }

    // ----- Selection ---------------------------------------------------------

    /** `_cycle_selection`: with more than one hit under the cursor, the next
        one (wrapping) becomes selected. */
    method CycleSelection()
      requires Valid()
      modifies this`cycleIndex, history`state
      ensures Valid()
      ensures |bonesAtCursor| <= 1 ==> cycleIndex == old(cycleIndex) && history.state == old(history.state)
      ensures |bonesAtCursor| > 1 ==>
        cycleIndex == (old(cycleIndex) + 1) % |bonesAtCursor|
        && history.state == old(history.state).(selected := Some(bonesAtCursor[cycleIndex].name))
    {
      if |bonesAtCursor| > 1 {
        cycleIndex := (cycleIndex + 1) % |bonesAtCursor|;
        history.state := history.state.(selected := Some(bonesAtCursor[cycleIndex].name));
      }
    }

    /** `_handle_bone_selection`. `hits` is what `get_all_bones_at_position`
        found at the click and `near` whether the click lies within the
        click tolerance (3 pixels) of the previous one. A repeated click on
        the same hit list advances the cycle, any other hit list restarts
        it; the chosen part starts the matching drag and remembers what the
        drag will change. */
    method HandleBoneSelection(hits: seq<Hit>, near: bool, screenPos: (int, int), viewportPos: (real, real))
      requires Valid()
      requires forall h :: h in hits ==> h.name in history.state.bones
      modifies this, history`state
      ensures Valid()
      ensures lastClick == Some(screenPos)
      ensures history.state.bones == old(history.state.bones)
      ensures hits == [] ==>
        history.state.selected == None && bonesAtCursor == [] && cycleIndex == 0
        && !draggingStart && !draggingEnd && !draggingBody
        && operationInProgress == old(operationInProgress)
      ensures hits != [] ==>
        && bonesAtCursor == hits
        && cycleIndex == (if old(lastClick).Some? && near && old(bonesAtCursor) == hits
                          then (old(cycleIndex) + 1) % |hits| else 0)
        && history.state.selected == Some(hits[cycleIndex].name)
        && operationInProgress
        && var b := history.state.bones[hits[cycleIndex].name];
        && (hits[cycleIndex].part == EndPart ==>
              draggingEnd && dragStartAngleLength == Some((b.angle, b.length)))
        && (hits[cycleIndex].part == StartPart ==>
              draggingStart && dragStartPosition == Some((b.x, b.y)))
        && (hits[cycleIndex].part == BodyPart ==>
              draggingBody && dragStartPosition == Some((b.x, b.y))
              && dragOffset == (viewportPos.0 - b.x, viewportPos.1 - b.y))
    {
      var sameArea := lastClick.Some? && near;
      if hits != [] {
        if sameArea && bonesAtCursor == hits {
          cycleIndex := (cycleIndex + 1) % |hits|;
        } else {
          bonesAtCursor := hits;
          cycleIndex := 0;
        }
        var h := hits[cycleIndex];
        history.state := history.state.(selected := Some(h.name));
        var b := history.state.bones[h.name];
        operationInProgress := true;
        match h.part {
          case EndPart =>
            draggingEnd := true;
            dragStartAngleLength := Some((b.angle, b.length));
          case StartPart =>
            draggingStart := true;
            dragStartPosition := Some((b.x, b.y));
          case BodyPart =>
            dragOffset := (viewportPos.0 - b.x, viewportPos.1 - b.y);
            draggingBody := true;
            dragStartPosition := Some((b.x, b.y));
        }
      } else {
        history.state := history.state.(selected := None);
        bonesAtCursor := [];
        cycleIndex := 0;
        draggingEnd, draggingStart, draggingBody := false, false, false;
      }
      lastClick := Some(screenPos);
    }

    // ----- Direct manipulation and its recording -------------------------------

    /** `_update_bone_start_drag` with the cursor in viewport coordinates:
        the bone starts there and its subtree follows. */
    method UpdateStartDrag(p: (real, real))
      requires Valid()
      modifies history`state
      ensures Valid()
      ensures SelectedBone(old(history.state)) ==>
        var n := old(history.state.selected.value);
        history.state == old(history.state).(bones := BP.Reposition(old(history.state.bones)[n := old(history.state.bones[n]).(x := p.0, y := p.1)], n, tip))
      ensures !SelectedBone(old(history.state)) ==> history.state == old(history.state)
    {
      if SelectedBone(history.state) {
        var n := history.state.selected.value;
        var moved := history.state.bones[n := history.state.bones[n].(x := p.0, y := p.1)];
        history.state := history.state.(bones := BP.Reposition(moved, n, tip));
      }
    }

    /** `_update_bone_end_drag` with the cursor's distance and angle from
        the bone's start: a drag closer than 5 changes nothing, any other
        turns and stretches the bone and its subtree follows. */
    method UpdateEndDrag(newLength: real, newAngle: real)
      requires Valid()
      modifies history`state
      ensures Valid()
      ensures SelectedBone(old(history.state)) && newLength > 5.0 ==>
        var n := old(history.state.selected.value);
        history.state == old(history.state).(bones := BP.Reposition(old(history.state.bones)[n := EndDragged(old(history.state.bones[n]), newLength, newAngle)], n, tip))
      ensures !SelectedBone(old(history.state)) || newLength <= 5.0 ==> history.state == old(history.state)
    {
      if SelectedBone(history.state) && newLength > 5.0 {
        var n := history.state.selected.value;
        var turned := history.state.bones[n := EndDragged(history.state.bones[n], newLength, newAngle)];
        history.state := history.state.(bones := BP.Reposition(turned, n, tip));
      }
    }

    /** `_update_bone_body_drag` with the cursor in viewport coordinates:
        the bone moves and its subtree follows. */
    method UpdateBodyDrag(p: (real, real))
      requires Valid()
      modifies history`state
      ensures Valid()
      ensures SelectedBone(old(history.state)) ==>
        var n := old(history.state.selected.value);
        history.state == old(history.state).(bones := BP.Reposition(old(history.state.bones)[n := BodyDragged(old(history.state.bones[n]), dragOffset, p)], n, tip))
      ensures !SelectedBone(old(history.state)) ==> history.state == old(history.state)
    {
      if SelectedBone(history.state) {
        var n := history.state.selected.value;
        var moved := history.state.bones[n := BodyDragged(history.state.bones[n], dragOffset, p)];
        history.state := history.state.(bones := BP.Reposition(moved, n, tip));
      }
    }

    /** `_complete_current_operation`: records the finished drag without
        running it (`undo_stack.append` and `redo_stack.clear()`, outside
        the history limit) and ends the operation. Nothing happens without
        an operation in progress on an existing selected bone. */
    method CompleteCurrentOperation()
      requires Valid()
      modifies this`operationInProgress, this`dragStartPosition, this`dragStartAngleLength,
        history`undoStack, history`redoStack
      ensures Valid()
      ensures history.state == old(history.state)
      ensures !old(operationInProgress) || !SelectedBone(history.state) ==>
        operationInProgress == old(operationInProgress) && dragStartPosition == old(dragStartPosition)
        && dragStartAngleLength == old(dragStartAngleLength)
        && history.undoStack == old(history.undoStack) && history.redoStack == old(history.redoStack)
      ensures old(operationInProgress) && SelectedBone(history.state) ==>
        && !operationInProgress && dragStartPosition == None && dragStartAngleLength == None
        && var r := DragRecord(history.state, draggingEnd, draggingStart || draggingBody,
                               old(dragStartAngleLength), old(dragStartPosition), tip);
        && (r.Some? ==> history.undoStack == old(history.undoStack) + [r.value] && history.redoStack == [])
        && (r.None? ==> history.undoStack == old(history.undoStack) && history.redoStack == old(history.redoStack))
    {
      if !operationInProgress || !SelectedBone(history.state) {
        return;
      }
      var r := DragRecord(history.state, draggingEnd, draggingStart || draggingBody,
                          dragStartAngleLength, dragStartPosition, tip);
      if r.Some? {
        history.RecordPerformed(r.value);
      }
      operationInProgress := false;
      dragStartPosition := None;
      dragStartAngleLength := None;
    }

    // ----- Hierarchy panel ---------------------------------------------------

    /** `_handle_hierarchy_panel_click`: the first row within 12 pixels is
        selected and, in editing mode, starts a hierarchy drag, unless one
        is already running. */
    method HierarchyPanelClick(items: seq<(string, int)>, y: int, editing: bool)
      requires Valid()
      modifies this`draggingHierarchy, this`hierarchyDragBone, history`state
      ensures Valid()
      ensures history.state.bones == old(history.state.bones)
      ensures var m := FirstMatch(items, Near(y), 0);
        if m.Some? && items[m.value].0 != "" && !old(draggingHierarchy) then
          history.state.selected == Some(items[m.value].0)
          && draggingHierarchy == editing
          && (editing ==> hierarchyDragBone == Some(items[m.value].0))
          && (!editing ==> hierarchyDragBone == old(hierarchyDragBone))
        else
          history.state == old(history.state) && draggingHierarchy == old(draggingHierarchy)
          && hierarchyDragBone == old(hierarchyDragBone)
    {
      var i := 0;
      var clicked: Option<string> := None;
      while i < |items|
        invariant 0 <= i <= |items|
        invariant forall j :: 0 <= j < i ==> !Near(y)(items[j])
      {
        if IAbs(y - items[i].1) < 12 {
          clicked := Some(items[i].0);
          FirstMatchAt(items, Near(y), i);
          break;
        }
        i := i + 1;
      }
      if IsSet(clicked) && !draggingHierarchy {
        history.state := history.state.(selected := clicked);
        if editing {
          draggingHierarchy := true;
          hierarchyDragBone := clicked;
        }
      }
    }

    /** `_update_hierarchy_drag`: the first row within 12 pixels of the
        cursor becomes the drop target unless it is the dragged bone or one
        of its descendants; the cursor's offset from the row picks
        before/after/child. `n` bounds the parent chains; on links that
        loop, the descendant walk of the source never returns. */
    method UpdateHierarchyDrag(items: seq<(string, int)>, y: int, ghost n: nat)
      requires Valid()
      requires Acyclic(history.state.bones, n)
      modifies this`dropTarget, this`dropPosition
      ensures Valid()
      ensures !draggingHierarchy || !IsSet(hierarchyDragBone) ==>
        dropTarget == old(dropTarget) && dropPosition == old(dropPosition)
      ensures draggingHierarchy && IsSet(hierarchyDragBone) ==>
        var d := hierarchyDragBone.value;
        var m := FirstMatch(items, Near(y), 0);
        && (dropTarget.Some? <==> m.Some? && items[m.value].0 != d && !Below(history.state.bones, items[m.value].0, d))
        && (dropTarget.Some? ==> dropTarget.value == items[m.value].0 && dropPosition == PositionFor(y - items[m.value].1))
        && (dropTarget.None? ==> dropPosition == Child)
    {
      if !draggingHierarchy || !IsSet(hierarchyDragBone) {
        return;
      }
      var d := hierarchyDragBone.value;
      dropTarget := None;
      dropPosition := Child;
      var i := 0;
      while i < |items|
        invariant 0 <= i <= |items|
        invariant forall j :: 0 <= j < i ==> !Near(y)(items[j])
        invariant dropTarget == None && dropPosition == Child
      {
        if IAbs(y - items[i].1) < 12 {
          FirstMatchAt(items, Near(y), i);
          var name := items[i].0;
          if name != d {
            var below := IsDescendant(history.state.bones, name, d, n);
            if !below {
              dropTarget := Some(name);
              var rel := y - items[i].1;
              if rel < -4 {
                dropPosition := Before;
              } else if rel > 4 {
                dropPosition := After;
              } else {
                dropPosition := Child;
              }
            }
          }
          return;
        }
        i := i + 1;
      }
    }

    /** `_complete_hierarchy_drag`: the drop re-links the dragged bone
        directly in the bone dictionary and re-attaches it; no command is
        recorded. A drop
        target found by `UpdateHierarchyDrag` keeps the parent chains
        finite. Both bones must still be stored: otherwise the source's
        dictionary reads raise `KeyError`. */
    method CompleteHierarchyDrag(ghost n: nat)
      requires Valid()
      requires draggingHierarchy && IsSet(hierarchyDragBone) && IsSet(dropTarget) ==>
        hierarchyDragBone.value in history.state.bones && dropTarget.value in history.state.bones
      modifies history`state
      ensures Valid()
      ensures DropDone(old(history.state), history.state, draggingHierarchy, hierarchyDragBone, dropTarget, dropPosition, tip)
      ensures draggingHierarchy && IsSet(hierarchyDragBone) && IsSet(dropTarget) ==>
        var d, t := hierarchyDragBone.value, dropTarget.value;
        Acyclic(old(history.state.bones), n) && t != d && !Below(old(history.state.bones), t, d) ==>
          Acyclic(history.state.bones, 2 * n + 1)
    {
      if !draggingHierarchy || !IsSet(hierarchyDragBone) || !IsSet(dropTarget) {
        return;
      }
      var d, t := hierarchyDragBone.value, dropTarget.value;
      ghost var before := history.state.bones;
      history.state := history.state.(bones := Dropped(history.state.bones, d, t, dropPosition, tip));
      if Acyclic(before, n) && t != d && !Below(before, t, d) {
        DropAcyclic(before, d, t, dropPosition, tip, n);
      }
    }

    /** The first half of `_handle_mouse_up`: the drag is recorded, then a
        pending creation completes. */
    method FinishBoneOperation(inViewport: bool, length: real, angle: real,
                               attach: Option<(string, AttachmentPoint)>)
      requires Valid()
      requires attach.Some? ==> attach.value.0 in history.state.bones
      modifies this`operationInProgress, this`dragStartPosition, this`dragStartAngleLength, this`boneStartPos,
        history`state, history`undoStack, history`redoStack
      ensures Valid()
      ensures old(history.state.bones).Keys <= history.state.bones.Keys
      ensures !old(operationInProgress) ==> !operationInProgress
      ensures old(operationInProgress) && SelectedBone(old(history.state)) ==> !operationInProgress
      ensures Released(old(history.state), old(history.undoStack),
                       if old(operationInProgress) && SelectedBone(old(history.state))
                       then DragRecord(old(history.state), old(draggingEnd), old(draggingStart) || old(draggingBody),
                                       old(dragStartAngleLength), old(dragStartPosition), tip)
                       else None,
                       if old(creatingBone) && inViewport && length > 10.0 then old(boneStartPos) else None,
                       length, angle, attach, history.state, history.undoStack)
    {
      CompleteCurrentOperation();
      if creatingBone && boneStartPos.Some? {
        CompleteBoneCreation(inViewport, length, angle, attach);
      }
    }

    /** `_handle_mouse_up` for the left button: the drag is recorded first,
        then a pending creation completes, then every drag flag is cleared,
        and a hierarchy drag drops. `released` is the sheet before the
        drop. */
    method HandleMouseUp(inViewport: bool, length: real, angle: real,
                         attach: Option<(string, AttachmentPoint)>, ghost n: nat)
        returns (ghost released: Sheet)
      requires Valid()
      requires attach.Some? ==> attach.value.0 in history.state.bones
      requires draggingHierarchy && IsSet(hierarchyDragBone) && IsSet(dropTarget) ==>
        hierarchyDragBone.value in history.state.bones && dropTarget.value in history.state.bones
      modifies this`operationInProgress, this`dragStartPosition, this`dragStartAngleLength, this`boneStartPos,
        this`creatingBone, this`draggingStart, this`draggingEnd, this`draggingBody,
        this`draggingHierarchy, this`hierarchyDragBone, this`dropTarget,
        history`state, history`undoStack, history`redoStack
      ensures Valid()
      ensures !creatingBone && !draggingStart && !draggingEnd && !draggingBody
      ensures !draggingHierarchy && hierarchyDragBone == None && dropTarget == None
      ensures !old(operationInProgress) ==> !operationInProgress
      ensures old(operationInProgress) && SelectedBone(old(history.state)) ==> !operationInProgress
      ensures Released(old(history.state), old(history.undoStack),
                       if old(operationInProgress) && SelectedBone(old(history.state))
                       then DragRecord(old(history.state), old(draggingEnd), old(draggingStart) || old(draggingBody),
                                       old(dragStartAngleLength), old(dragStartPosition), tip)
                       else None,
                       if old(creatingBone) && inViewport && length > 10.0 then old(boneStartPos) else None,
                       length, angle, attach, released, history.undoStack)
      ensures DropDone(released, history.state, old(draggingHierarchy), old(hierarchyDragBone), old(dropTarget),
                       old(dropPosition), tip)
    {
      ghost var dh, hb, dt, dp := draggingHierarchy, hierarchyDragBone, dropTarget, dropPosition;
      FinishBoneOperation(inViewport, length, angle, attach);
      released := history.state;
      assert draggingHierarchy == dh && hierarchyDragBone == hb && dropTarget == dt && dropPosition == dp;
      EndDrags(n);
    }

    /** The second half of `_handle_mouse_up`: every drag flag is cleared
        and a hierarchy drag drops. */
    method EndDrags(ghost n: nat)
      requires Valid()
      requires draggingHierarchy && IsSet(hierarchyDragBone) && IsSet(dropTarget) ==>
        hierarchyDragBone.value in history.state.bones && dropTarget.value in history.state.bones
      modifies this`creatingBone, this`draggingStart, this`draggingEnd, this`draggingBody,
        this`draggingHierarchy, this`hierarchyDragBone, this`dropTarget, history`state
      ensures Valid()
      ensures !creatingBone && !draggingStart && !draggingEnd && !draggingBody
      ensures !draggingHierarchy && hierarchyDragBone == None && dropTarget == None
      ensures DropDone(old(history.state), history.state, old(draggingHierarchy), old(hierarchyDragBone),
                       old(dropTarget), old(dropPosition), tip)
    {
      ghost var s, dh, hb, dt := history.state, draggingHierarchy, hierarchyDragBone, dropTarget;
      creatingBone := false;
      draggingStart, draggingEnd, draggingBody := false, false, false;
      CompleteHierarchyDrag(n);
      assert DropDone(s, history.state, dh, hb, dt, dropPosition, tip);
      draggingHierarchy := false;
      hierarchyDragBone := None;
      dropTarget := None;
    }
  }
}
