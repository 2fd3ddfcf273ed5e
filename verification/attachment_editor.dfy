/** The sprite attachment editor of pyspine/PySpine_SpriteAttachmentEditor.py
    (pyspine/old_pyspine/PySpine_SpriteAttachmentEditor.py is the same file
    up to the degree glyph in two messages).

    `SpriteAttachmentProject` holds the sprite rectangles, the bones and the
    sprite instances; the editor's `UndoRedoManager` commands edit the
    instance dictionary, which is the manager's state here. Where a bone's
    END point is needed (it takes a cosine and a sine) it is a function
    parameter, and the hit tests that pick what lies under the cursor are
    passed in as their results. */
module AttachmentEditor {
  import opened Types
  import UndoRedo
  import Names
  import SC = SpriteCommands

  type Instances = map<string, SpriteInstance>

  // ----- SpriteAttachmentProject ---------------------------------------------

  /** How many instances already use the sprite. */
  function CountOf(instances: Instances, spriteName: string): nat {
    |set id | id in instances && instances[id].spriteName == spriteName|
  }

  /** The id `create_sprite_instance` gives: the sprite's name, `_`, and
      one more than the number of instances of that sprite. */
  function InstanceId(instances: Instances, spriteName: string): (id: string)
    ensures Names.Suffix(id, spriteName + "_") == Some(CountOf(instances, spriteName) + 1)
  {
    Names.SuffixOfAllocated(spriteName + "_", CountOf(instances, spriteName) + 1);
    spriteName + "_" + Names.Digits(CountOf(instances, spriteName) + 1)
  }

  /** Counting is not allocation: once an instance has been deleted, the
      count can name an instance that still exists. With only `s_2` left,
      the next id for sprite `s` is `s_2` again, and creating it replaces
      the existing instance. */
  lemma InstanceIdCollides()
    ensures var d := map["s_2" := SpriteInstance("s_2", "s")];
      InstanceId(d, "s") == "s_2" && InstanceId(d, "s") in d
  {
    var d := map["s_2" := SpriteInstance("s_2", "s")];
    assert (set id | id in d && d[id].spriteName == "s") == {"s_2"};
    assert Names.Digits(2) == "2";
  }

  /** The id the editor uses instead: the sprite's name, `_`, and the
      smallest positive number that gives an unused id. */
  method FreshInstanceId(instances: Instances, spriteName: string) returns (id: string)
    ensures id !in instances
    ensures exists k: nat :: k >= 1 && id == spriteName + "_" + Names.Digits(k)
  {
    var k;
    id, k := Names.FirstFreeCounter(instances.Keys, spriteName + "_");
  }

  /** Where a sprite's origin goes: the bone's START point, or its END
      point, plus the instance's offset. `None` for an unknown instance, one
      without a bone, or one whose bone is gone. */
  function WorldPosition(bones: Bones, instances: Instances, id: string, endPoint: Bone -> (real, real))
    : (r: Option<(real, real)>)
    ensures r.Some? <==> id in instances && IsSet(instances[id].boneName) && instances[id].boneName.value in bones
    ensures r.Some? && instances[id].boneAttachmentPoint == Start ==>
      var i := instances[id]; var b := bones[i.boneName.value];
      r.value == (b.x + i.offsetX, b.y + i.offsetY)
    ensures r.Some? && instances[id].boneAttachmentPoint == End ==>
      var i := instances[id]; var e := endPoint(bones[i.boneName.value]);
      r.value == (e.0 + i.offsetX, e.1 + i.offsetY)
  {
    if id !in instances then None
    else
      var i := instances[id];
      if !IsSet(i.boneName) || i.boneName.value !in bones then None
      else
        var b := bones[i.boneName.value];
        var a := if i.boneAttachmentPoint == End then endPoint(b) else (b.x, b.y);
        Some((a.0 + i.offsetX, a.1 + i.offsetY))
  }

  /** The grab offset kept when a click takes hold of a sprite: the click
      less the sprite's world position, or the previous offset when the
      sprite has no world position. */
  function GrabOffset(bones: Bones, instances: Instances, id: string, endPoint: Bone -> (real, real),
                      click: (real, real), previous: (real, real)): (r: (real, real))
    ensures var w := WorldPosition(bones, instances, id, endPoint);
      && (w.Some? ==> w.value.0 + r.0 == click.0 && w.value.1 + r.1 == click.1)
      && (w.None? ==> r == previous)
  {
    var w := WorldPosition(bones, instances, id, endPoint);
    if w.Some? then (click.0 - w.value.0, click.1 - w.value.1) else previous
  }

  /** `x` comes before `y` in the key order. */
  ghost predicate Precedes(order: seq<string>, x: string, y: string) {
    exists a, b :: 0 <= a < b < |order| && order[a] == x && order[b] == y
  }

  /** The project's records. `order` is the insertion order of the instance
      dictionary, which Python keeps and the per-bone query reports in. */
  class SpriteAttachmentProject {
    var sprites: map<string, SpriteRect>
    var bones: Bones
    var instances: Instances
    var order: seq<string>

    ghost predicate Valid()
      reads this
    {
      (forall i, j :: 0 <= i < j < |order| ==> order[i] != order[j])
      && (forall id :: id in order <==> id in instances)
    }

    constructor ()
      ensures Valid()
      ensures sprites == map[] && bones == map[] && instances == map[] && order == []
    {
      sprites, bones, instances, order := map[], map[], map[], [];
    }

    /** `create_sprite_instance`: a fresh record with the default fields,
        not yet added to the dictionary. */
    function CreateSpriteInstance(spriteName: string): (inst: SpriteInstance)
      reads this
      ensures inst == SpriteInstance(InstanceId(instances, spriteName), spriteName)
      ensures inst.boneName == None && inst.offsetX == 0.0 && inst.offsetY == 0.0
      ensures inst.offsetRotation == 0.0 && inst.scale == 1.0 && inst.boneAttachmentPoint == Start
    {
      SpriteInstance(InstanceId(instances, spriteName), spriteName)
    }

    /** `attach_sprite_instance_to_bone`: nothing happens unless both the
        instance and the bone exist; then the instance takes the bone and
        attachment point and its offset is reset to (0, 0). */
    method AttachSpriteInstanceToBone(id: string, bone: string, point: AttachmentPoint := Start)
      modifies this`instances
      ensures old(Valid()) ==> Valid()
      ensures id !in old(instances) || bone !in bones ==> instances == old(instances)
      ensures id in old(instances) && bone in bones ==>
        instances == old(instances)[id := old(instances)[id].(boneName := Some(bone),
          boneAttachmentPoint := point, offsetX := 0.0, offsetY := 0.0)]
    {
      if id in instances && bone in bones {
        var i := instances[id];
        instances := instances[id := i.(boneName := Some(bone), boneAttachmentPoint := point,
                                       offsetX := 0.0, offsetY := 0.0)];
      }
    }

    /** `get_sprite_instances_for_bone`: the ids whose instance names the
        bone, in dictionary order, each once. */
    method SpriteInstancesForBone(bone: string) returns (r: seq<string>)
      requires Valid()
      ensures forall id :: id in r <==> id in instances && instances[id].boneName == Some(bone)
      ensures forall i, j :: 0 <= i < j < |r| ==> r[i] != r[j]
      ensures forall i, j :: 0 <= i < j < |r| ==> Precedes(order, r[i], r[j])
    {
      r := [];
      ghost var at: seq<int> := [];
      var n := 0;
      while n < |order|
        invariant 0 <= n <= |order|
        invariant |at| == |r|
        invariant forall i :: 0 <= i < |r| ==> 0 <= at[i] < n && order[at[i]] == r[i]
        invariant forall i, j :: 0 <= i < j < |r| ==> at[i] < at[j]
        invariant forall id :: id in r <==> id in order[..n] && instances[id].boneName == Some(bone)
      {
        var id := order[n];
        if instances[id].boneName == Some(bone) {
          r := r + [id];
          at := at + [n];
        }
        n := n + 1;
      }
      assert order[..n] == order;
      forall i, j | 0 <= i < j < |r|
        ensures Precedes(order, r[i], r[j])
      {
        var a, b := at[i], at[j];
        assert 0 <= a < b < |order| && order[a] == r[i] && order[b] == r[j];
      }
    }

    /** `get_sprite_world_position`. */
    function SpriteWorldPosition(id: string, endPoint: Bone -> (real, real)): (r: Option<(real, real)>)
      reads this
      ensures r == WorldPosition(bones, instances, id, endPoint)
      ensures r.Some? && instances[id].boneAttachmentPoint == Start ==>
        r.value == (bones[instances[id].boneName.value].x + instances[id].offsetX,
                    bones[instances[id].boneName.value].y + instances[id].offsetY)
    {
      WorldPosition(bones, instances, id, endPoint)
    }
  }

  // ----- the editor's commands -----------------------------------------------

  /** The commands the editor puts on its undo stack. The one-instance
      commands hold the instance's id; in the source they hold the instance
      object itself. */
  datatype Edit =
    | Add(create: SC.Create<SpriteInstance>)
    | Remove(delete: SC.Delete<SpriteInstance>)
    | Move(id: string, move: SC.MoveInstance)
    | Rotate(id: string, rotate: SC.RotateInstance)
    | Attach(id: string, attach: SC.AttachInstance)

  function Exec(e: Edit, d: Instances): Instances {
    match e
    case Add(c) => SC.CreateExecute(c, d)
    case Remove(c) => SC.DeleteExecute(c, d)
    case Move(id, c) => if id in d then d[id := SC.MoveInstanceExecute(c, d[id])] else d
    case Rotate(id, c) => if id in d then d[id := SC.RotateInstanceExecute(c, d[id])] else d
    case Attach(id, c) => if id in d then d[id := SC.AttachExecute(c, d[id])] else d
  }

  function Unexec(e: Edit, d: Instances): Instances {
    match e
    case Add(c) => SC.CreateUndo(c, d)
    case Remove(c) => SC.DeleteUndo(c, d)
    case Move(id, c) => if id in d then d[id := SC.MoveInstanceUndo(c, d[id])] else d
    case Rotate(id, c) => if id in d then d[id := SC.RotateInstanceUndo(c, d[id])] else d
    case Attach(id, c) => if id in d then d[id := SC.AttachUndo(c, d[id])] else d
  }

  /** Python's truthiness of an optional id. */
  predicate Chosen(s: Option<string>, d: Instances) {
    IsSet(s) && s.value in d
  }

  /** `_rotate_selected_sprite(degrees)`: the rotation becomes
      (old + degrees) mod 360, in [0, 360); undo brings the old one back. */
  function RotateEdit(d: Instances, selected: Option<string>, degrees: real): (r: Option<Edit>)
    ensures r.Some? <==> Chosen(selected, d)
    ensures r.Some? ==>
      var i := d[selected.value]; var rot := PyMod(i.offsetRotation + degrees, 360.0);
      && Exec(r.value, d) == d[selected.value := i.(offsetRotation := rot)]
      && 0.0 <= rot < 360.0
      && Unexec(r.value, Exec(r.value, d)) == d
  {
    if !Chosen(selected, d) then None
    else
      var i := d[selected.value];
      Some(Rotate(selected.value, SC.RotateInstance(i.offsetRotation, PyMod(i.offsetRotation + degrees, 360.0))))
  }

  /** `_reset_sprite_rotation`: a command only when |rotation| > 0.1. */
  function ResetRotationEdit(d: Instances, selected: Option<string>): (r: Option<Edit>)
    ensures r.Some? <==> Chosen(selected, d) && Abs(d[selected.value].offsetRotation) > 0.1
    ensures r.Some? ==>
      && Exec(r.value, d) == d[selected.value := d[selected.value].(offsetRotation := 0.0)]
      && Unexec(r.value, Exec(r.value, d)) == d
  {
    if !Chosen(selected, d) || Abs(d[selected.value].offsetRotation) <= 0.1 then None
    else Some(Rotate(selected.value, SC.RotateInstance(d[selected.value].offsetRotation, 0.0)))
  }

  /** `_toggle_sprite_attachment_point`: refused for an instance without a
      bone; otherwise START and END swap, the bone staying the same. */
  function ToggleEdit(d: Instances, selected: Option<string>): (r: Option<Edit>)
    ensures r.Some? <==> Chosen(selected, d) && IsSet(d[selected.value].boneName)
    ensures r.Some? ==>
      var i := d[selected.value];
      && Exec(r.value, d) == d[selected.value := i.(boneAttachmentPoint := if i.boneAttachmentPoint == End then Start else End)]
      && Exec(r.value, d)[selected.value].boneAttachmentPoint != i.boneAttachmentPoint
      && Unexec(r.value, Exec(r.value, d)) == d
  {
    if !Chosen(selected, d) || !IsSet(d[selected.value].boneName) then None
    else
      var i := d[selected.value];
      var p := if i.boneAttachmentPoint == End then Start else End;
      Some(Attach(selected.value, SC.AttachInstance(i.boneName, i.boneName, i.boneAttachmentPoint, p)))
  }

  /** The drop of `_complete_hierarchy_sprite_drag`: an attach command only
      when the bone or the attachment point differs. */
  function DropEdit(d: Instances, dragged: string, target: string, point: AttachmentPoint): (r: Option<Edit>)
    ensures r.Some? <==> dragged in d && (d[dragged].boneName != Some(target) || d[dragged].boneAttachmentPoint != point)
    ensures r.Some? ==>
      && Exec(r.value, d) == d[dragged := d[dragged].(boneName := Some(target), boneAttachmentPoint := point)]
      && Unexec(r.value, Exec(r.value, d)) == d
  {
    if dragged !in d then None
    else
      var i := d[dragged];
      if i.boneName == Some(target) && i.boneAttachmentPoint == point then None
      else Some(Attach(dragged, SC.AttachInstance(i.boneName, Some(target), i.boneAttachmentPoint, point)))
  }

  /** What `_complete_current_operation` records for a finished drag or
      rotation: a command only when the value moved by more than 0.1. The
      change is already applied, so undoing it brings back the start
      value and redoing it the current one. */
  function OperationRecord(d: Instances, id: string, moving: bool, startOffset: Option<(real, real)>,
                           rotating: bool, startRotation: Option<real>): (r: Option<Edit>)
    requires id in d
    ensures moving && startOffset.Some? ==>
      (r.Some? <==> Abs(startOffset.value.0 - d[id].offsetX) > 0.1 || Abs(startOffset.value.1 - d[id].offsetY) > 0.1)
    ensures !(moving && startOffset.Some?) && rotating && startRotation.Some? ==>
      (r.Some? <==> Abs(startRotation.value - d[id].offsetRotation) > 0.1)
    ensures !(moving && startOffset.Some?) && !(rotating && startRotation.Some?) ==> r.None?
    ensures r.Some? && moving && startOffset.Some? ==>
      Unexec(r.value, d) == d[id := d[id].(offsetX := startOffset.value.0, offsetY := startOffset.value.1)]
    ensures r.Some? && !(moving && startOffset.Some?) ==>
      Unexec(r.value, d) == d[id := d[id].(offsetRotation := startRotation.value)]
    ensures r.Some? ==> Exec(r.value, Unexec(r.value, d)) == d
  {
    var i := d[id];
    if moving && startOffset.Some? then
      var s := startOffset.value;
      if Abs(s.0 - i.offsetX) > 0.1 || Abs(s.1 - i.offsetY) > 0.1 then
        Some(Move(id, SC.MoveInstance(s.0, s.1, i.offsetX, i.offsetY)))
      else None
    else if rotating && startRotation.Some? then
      if Abs(startRotation.value - i.offsetRotation) > 0.1 then
        Some(Rotate(id, SC.RotateInstance(startRotation.value, i.offsetRotation)))
      else None
    else None
  }

  // ----- what lies under the cursor -----------------------------------------

  datatype Grip = AtStart | AtEnd | AtBody

  /** An entry of the overlap list: a sprite instance or a bone, with the
      part of it that was hit. */
  datatype Element = SpriteEl(id: string) | BoneEl(name: string, grip: Grip)

  function GripOf(p: AttachmentPoint): Grip {
    if p == Start then AtStart else AtEnd
  }

  /** The overlap list built from the hit tests' answers: the sprite under
      the cursor first, then one bone entry, its attachment point when one
      is hit and otherwise its body. The earlier editor's
      `get_objects_at_position` (pyspine/old_pyspine/attachment_editor.py)
      builds its list by the same rule. */
  function ElementsAt(sprite: Option<string>, point: Option<(string, AttachmentPoint)>, body: Option<string>)
    : (r: seq<Element>)
    ensures |r| <= 2
    ensures IsSet(sprite) ==> r != [] && r[0] == SpriteEl(sprite.value)
    ensures forall k :: 0 <= k < |r| && r[k].SpriteEl? ==> k == 0 && IsSet(sprite) && r[k].id == sprite.value
    ensures forall k :: 0 <= k < |r| && r[k].BoneEl? ==> k == |r| - 1
    ensures var bones := if IsSet(sprite) then r[1..] else r;
      && (point.Some? && point.value.0 != "" ==> bones == [BoneEl(point.value.0, GripOf(point.value.1))])
      && (!(point.Some? && point.value.0 != "") ==>
            bones == (if IsSet(body) then [BoneEl(body.value, AtBody)] else []))
  {
    var s := if IsSet(sprite) then [SpriteEl(sprite.value)] else [];
    var b := if point.Some? && point.value.0 != "" then [BoneEl(point.value.0, GripOf(point.value.1))]
             else if IsSet(body) then [BoneEl(body.value, AtBody)] else [];
    s + b
  }

  /** The hit tests' answers for one click: at the tolerance of the click
      test (15) and of the creation test (20). */
  datatype Probe = Probe(
    sprite: Option<string>,
    point: Option<(string, AttachmentPoint)>,
    body: Option<string>,
    createPoint: Option<(string, AttachmentPoint)>,
    createBody: Option<string>)

  // ----- the editor ----------------------------------------------------------

  class SpriteAttachmentEditor {
    const history: UndoRedo.UndoRedoManager<Instances, Edit>
    var bones: Bones
    var selectedSpriteType: Option<string>
    var selectedInstance: Option<string>
    var selectedBone: Option<string>
    var operationInProgress: bool
    var dragStartOffset: Option<(real, real)>
    var dragStartRotation: Option<real>
    var draggingInstance: bool
    var rotating: bool
    var dragOffset: (real, real)
    var elementsAtCursor: seq<Element>
    var cycleIndex: int
    var lastClick: Option<(int, int)>
    var draggingHierarchySprite: bool
    var hierarchyDragSprite: Option<string>
    var dropTarget: Option<string>
    var dropPoint: AttachmentPoint

    /** The history runs the editor's commands with the limit of 50, and
        the cycle index points into a non-empty overlap list. */
    ghost predicate Valid()
      reads this, history
    {
      && history.exec == Exec && history.unexec == Unexec
      && history.historyLimit == 50 && history.enabled
      && 0 <= cycleIndex && (elementsAtCursor != [] ==> cycleIndex < |elementsAtCursor|)
    }

    constructor (bones: Bones)
      ensures Valid()
      ensures history.state == map[] && history.undoStack == [] && history.redoStack == []
      ensures this.bones == bones
      ensures selectedSpriteType == None && selectedInstance == None && selectedBone == None
      ensures elementsAtCursor == [] && cycleIndex == 0 && lastClick == None
      ensures !operationInProgress && !draggingInstance && !rotating && !draggingHierarchySprite
    {
      history := new UndoRedo.UndoRedoManager(map[], Exec, Unexec);
      this.bones := bones;
      selectedSpriteType, selectedInstance, selectedBone := None, None, None;
      operationInProgress := false;
      dragStartOffset, dragStartRotation := None, None;
      draggingInstance, rotating := false, false;
      dragOffset := (0.0, 0.0);
      elementsAtCursor, cycleIndex, lastClick := [], 0, None;
      draggingHierarchySprite, hierarchyDragSprite, dropTarget := false, None, None;
      dropPoint := Start;
    }

    /** `execute_command` of an optional command. */
    method Issue(e: Option<Edit>)
      requires Valid()
      modifies history`state, history`undoStack, history`redoStack
      ensures Valid()
      ensures e.None? ==>
        (history.state == old(history.state)
         && history.undoStack == old(history.undoStack) && history.redoStack == old(history.redoStack))
      ensures e.Some? ==>
        (history.state == Exec(e.value, old(history.state))
         && history.redoStack == [] && history.undoStack == UndoRedo.Trim(old(history.undoStack) + [e.value], 50))
      ensures e.Some? ==> history.undoStack != [] && history.undoStack[|history.undoStack| - 1] == e.value
    {
      if e.Some? {
        history.ExecuteCommand(e.value);
      }
    }

    method RotateSelected(degrees: real)
      requires Valid()
      modifies history`state, history`undoStack, history`redoStack
      ensures Valid()
      ensures Chosen(selectedInstance, old(history.state)) ==>
        var id := selectedInstance.value; var rot := PyMod(old(history.state)[id].offsetRotation + degrees, 360.0);
        && history.state == old(history.state)[id := old(history.state)[id].(offsetRotation := rot)]
        && 0.0 <= rot < 360.0
      ensures !Chosen(selectedInstance, old(history.state)) ==> history.state == old(history.state)
    {
      Issue(RotateEdit(history.state, selectedInstance, degrees));
    }

    method ResetRotation()
      requires Valid()
      modifies history`state, history`undoStack, history`redoStack
      ensures Valid()
      ensures history.state == (if Chosen(selectedInstance, old(history.state))
                                   && Abs(old(history.state)[selectedInstance.value].offsetRotation) > 0.1
                                then old(history.state)[selectedInstance.value :=
                                       old(history.state)[selectedInstance.value].(offsetRotation := 0.0)]
                                else old(history.state))
    {
      Issue(ResetRotationEdit(history.state, selectedInstance));
    }

    method ToggleAttachmentPoint()
      requires Valid()
      modifies history`state, history`undoStack, history`redoStack
      ensures Valid()
      ensures !(Chosen(selectedInstance, old(history.state)) && IsSet(old(history.state)[selectedInstance.value].boneName))
        ==> history.state == old(history.state) && history.undoStack == old(history.undoStack)
      ensures Chosen(selectedInstance, old(history.state)) && IsSet(old(history.state)[selectedInstance.value].boneName)
        ==> var i := old(history.state)[selectedInstance.value];
            history.state == old(history.state)[selectedInstance.value :=
              i.(boneAttachmentPoint := if i.boneAttachmentPoint == End then Start else End)]
    {
      Issue(ToggleEdit(history.state, selectedInstance));
    }

    /** `delete_selected`: a delete command for the selected instance (a
        no-op command when it is unknown), then the selection is cleared. */
    method DeleteSelected()
      requires Valid()
      modifies this`selectedInstance, history`state, history`undoStack, history`redoStack
      ensures Valid()
      ensures !IsSet(old(selectedInstance)) ==> history.state == old(history.state) && selectedInstance == old(selectedInstance)
      ensures IsSet(old(selectedInstance)) ==>
        && history.state == old(history.state) - {old(selectedInstance).value}
        && selectedInstance == None
        && history.undoStack != []
        && history.undoStack[|history.undoStack| - 1] == Remove(SC.NewDelete(old(history.state), old(selectedInstance).value))
        && Unexec(history.undoStack[|history.undoStack| - 1], history.state) == old(history.state)
    {
      if IsSet(selectedInstance) {
        var e := Remove(SC.NewDelete(history.state, selectedInstance.value));
        Issue(Some(e));
        selectedInstance := None;
      }
    }

    /** `_cycle_selection`: with more than one overlapping element the next
        one is selected. */
    method CycleSelection()
      requires Valid()
      modifies this`cycleIndex, this`selectedInstance, this`selectedBone
      ensures Valid()
      ensures |elementsAtCursor| <= 1 ==>
        cycleIndex == old(cycleIndex) && selectedInstance == old(selectedInstance) && selectedBone == old(selectedBone)
      ensures |elementsAtCursor| > 1 ==>
        && cycleIndex == (old(cycleIndex) + 1) % |elementsAtCursor|
        && (elementsAtCursor[cycleIndex].SpriteEl? ==>
              selectedInstance == Some(elementsAtCursor[cycleIndex].id) && selectedBone == None)
        && (elementsAtCursor[cycleIndex].BoneEl? ==>
              selectedBone == Some(elementsAtCursor[cycleIndex].name) && selectedInstance == None)
    {
      if |elementsAtCursor| > 1 {
        cycleIndex := (cycleIndex + 1) % |elementsAtCursor|;
        match elementsAtCursor[cycleIndex] {
          case SpriteEl(id) =>
            selectedInstance, selectedBone := Some(id), None;
          case BoneEl(name, _) =>
            selectedBone, selectedInstance := Some(name), None;
        }
      }
    }

    /** `_create_sprite_instance_at_position` as the editor means it: on a
        bone's attachment point (or else on its body, with START) a new
        instance of the selected sprite is created, attached to that bone
        and placed so that its origin is at the click; `attachAt` is where
        the chosen attachment point lies. Without a selected sprite type or
        a known bone nothing changes. */
    twostate predicate CreatedAt(viewportPos: (real, real), point: Option<(string, AttachmentPoint)>,
                                 body: Option<string>, attachAt: Bone -> (real, real))
      reads this, history
    {
      var bone := if point.Some? && point.value.0 != "" then Some(point.value.0) else body;
      if !(IsSet(selectedSpriteType) && IsSet(bone) && bone.value in bones) then
        history.state == old(history.state) && selectedInstance == old(selectedInstance)
      else
        && selectedInstance.Some? && selectedInstance.value !in old(history.state)
        && history.state.Keys == old(history.state).Keys + {selectedInstance.value}
        && (forall k :: k in old(history.state) ==> history.state[k] == old(history.state)[k])
        && var i := history.state[selectedInstance.value];
        && i.spriteName == selectedSpriteType.value
        && i.boneName == bone
        && i.boneAttachmentPoint == (if point.Some? && point.value.0 != "" then point.value.1 else Start)
        && i.offsetX == viewportPos.0 - attachAt(bones[bone.value]).0
        && i.offsetY == viewportPos.1 - attachAt(bones[bone.value]).1
    }

    /** `_create_sprite_instance_at_position`, as `CreatedAt` states it. */
    method CreateInstanceAt(viewportPos: (real, real), point: Option<(string, AttachmentPoint)>,
                            body: Option<string>, attachAt: Bone -> (real, real))
      requires Valid()
      modifies this`selectedInstance, history`state, history`undoStack, history`redoStack
      ensures Valid()
      ensures CreatedAt(viewportPos, point, body, attachAt)
    {
      if !IsSet(selectedSpriteType) {
        return;
      }
      var bone, p;
      if point.Some? && point.value.0 != "" {
        bone, p := Some(point.value.0), point.value.1;
      } else {
        bone, p := body, Start;
      }
      if !IsSet(bone) || bone.value !in bones {
        return;
      }
      var id := FreshInstanceId(history.state, selectedSpriteType.value);
      var a := attachAt(bones[bone.value]);
      AddAttached(id, selectedSpriteType.value, bone.value, p, viewportPos.0 - a.0, viewportPos.1 - a.1);
      selectedInstance := Some(id);
    }

    /** The new instance `id` of `sprite` is created and attached to `bone`
        at `p` through two commands, then placed at offset (`ox`, `oy`)
        outside the history. */
    method AddAttached(id: string, sprite: string, bone: string, p: AttachmentPoint, ox: real, oy: real)
      requires Valid() && id !in history.state && bone in bones
      modifies history`state, history`undoStack, history`redoStack
      ensures Valid()
      ensures history.state.Keys == old(history.state).Keys + {id}
      ensures forall k :: k in old(history.state) ==> history.state[k] == old(history.state)[k]
      ensures var i := history.state[id];
        && i.spriteName == sprite && i.boneName == Some(bone) && i.boneAttachmentPoint == p
        && i.offsetX == ox && i.offsetY == oy
      ensures history.redoStack == []
      ensures history.undoStack == UndoRedo.Trim(UndoRedo.Trim(old(history.undoStack) + [Add(SC.Create(id, SpriteInstance(id, sprite)))], 50)
                                                 + [Attach(id, SC.AttachInstance(None, Some(bone), Start, p))], 50)
    {
      Issue(Some(Add(SC.Create(id, SpriteInstance(id, sprite)))));
      Issue(Some(Attach(id, SC.AttachInstance(None, Some(bone), Start, p))));
      var placed := history.state[id].(offsetX := ox, offsetY := oy);
      history.state := history.state[id := placed];
    }

    /** The part of `_handle_viewport_click` for a non-empty overlap list:
        a repeated click (`near` the previous one, on the same list) advances
        the cycle, any other click restarts it at the list's head; the
        chosen sprite is selected and its drag starts, the chosen bone is
        selected. */
    method SelectAt(els: seq<Element>, near: bool, viewportPos: (real, real), endPoint: Bone -> (real, real))
      requires Valid() && els != []
      requires forall k :: 0 <= k < |els| && els[k].SpriteEl? ==> els[k].id in history.state
      modifies this`elementsAtCursor, this`cycleIndex, this`selectedInstance, this`selectedBone,
        this`draggingInstance, this`operationInProgress, this`dragStartOffset, this`dragOffset
      ensures Valid()
      ensures elementsAtCursor == els
      ensures cycleIndex == (if lastClick.Some? && near && old(elementsAtCursor) == els
                             then (old(cycleIndex) + 1) % |els| else 0)
      ensures els[cycleIndex].SpriteEl? ==>
        var id := els[cycleIndex].id;
        && selectedInstance == Some(id) && selectedBone == None
        && draggingInstance && operationInProgress
        && dragStartOffset == Some((history.state[id].offsetX, history.state[id].offsetY))
        && dragOffset == GrabOffset(bones, history.state, id, endPoint, viewportPos, old(dragOffset))
      ensures els[cycleIndex].BoneEl? ==>
        selectedBone == Some(els[cycleIndex].name) && selectedInstance == None
    {
      var again := lastClick.Some? && near && elementsAtCursor == els;
      var k := AdvanceCycle(els, again);
      var e := els[k];
      if e.SpriteEl? {
        TakeHold(e.id, viewportPos, endPoint);
      } else {
        selectedBone, selectedInstance := Some(e.name), None;
      }
    }

    /** The cycling step: the same list again moves one on, wrapping to the
        front; any other list starts at 0. */
    method AdvanceCycle(els: seq<Element>, again: bool) returns (k: nat)
      requires Valid() && els != []
      requires again ==> elementsAtCursor == els
      modifies this`elementsAtCursor, this`cycleIndex
      ensures Valid() && elementsAtCursor == els && k == cycleIndex < |els|
      ensures cycleIndex == (if again then (old(cycleIndex) + 1) % |els| else 0)
    {
      k := if again then (cycleIndex + 1) % |els| else 0;
      elementsAtCursor, cycleIndex := els, k;
    }

    /** A sprite taken hold of: it is selected and its drag starts from its
        offset, the grab offset measured from its world position. */
    method TakeHold(id: string, viewportPos: (real, real), endPoint: Bone -> (real, real))
      requires Valid() && id in history.state
      modifies this`selectedInstance, this`selectedBone, this`draggingInstance, this`operationInProgress,
        this`dragStartOffset, this`dragOffset
      ensures Valid()
      ensures selectedInstance == Some(id) && selectedBone == None && draggingInstance && operationInProgress
      ensures dragStartOffset == Some((history.state[id].offsetX, history.state[id].offsetY))
      ensures dragOffset == GrabOffset(bones, history.state, id, endPoint, viewportPos, old(dragOffset))
    {
      var i := history.state[id];
      selectedInstance, selectedBone := Some(id), None;
      draggingInstance, operationInProgress := true, true;
      dragStartOffset := Some((i.offsetX, i.offsetY));
      dragOffset := GrabOffset(bones, history.state, id, endPoint, viewportPos, dragOffset);
    }

    /** `_handle_viewport_click`. `near` says whether the click lies within
        the click tolerance (5 pixels) of the previous one. A non-empty
        overlap list goes to `SelectAt`; an empty one creates an instance of
        the selected sprite type, or else clears the selection. */
    method HandleViewportClick(probe: Probe, near: bool, screenPos: (int, int), viewportPos: (real, real),
                               endPoint: Bone -> (real, real), attachAt: Bone -> (real, real))
      requires Valid()
      requires IsSet(probe.sprite) ==> probe.sprite.value in history.state
      modifies this`elementsAtCursor, this`cycleIndex, this`selectedInstance, this`selectedBone,
        this`draggingInstance, this`operationInProgress, this`dragStartOffset, this`dragOffset, this`lastClick,
        history`state, history`undoStack, history`redoStack
      ensures Valid()
      ensures lastClick == Some(screenPos)
      ensures var els := ElementsAt(probe.sprite, probe.point, probe.body);
        els != [] ==>
          && history.state == old(history.state)
          && elementsAtCursor == els
          && cycleIndex == (if old(lastClick).Some? && near && old(elementsAtCursor) == els
                            then (old(cycleIndex) + 1) % |els| else 0)
          && (els[cycleIndex].SpriteEl? ==>
                selectedInstance == Some(els[cycleIndex].id) && selectedBone == None
                && draggingInstance && operationInProgress)
          && (els[cycleIndex].BoneEl? ==>
                selectedBone == Some(els[cycleIndex].name) && selectedInstance == None)
      ensures var els := ElementsAt(probe.sprite, probe.point, probe.body);
        els == [] && IsSet(selectedSpriteType) ==>
          && CreatedAt(viewportPos, probe.createPoint, probe.createBody, attachAt)
          && selectedBone == old(selectedBone) && elementsAtCursor == old(elementsAtCursor) && cycleIndex == old(cycleIndex)
      ensures var els := ElementsAt(probe.sprite, probe.point, probe.body);
        els == [] && !IsSet(selectedSpriteType) ==>
          && history.state == old(history.state)
          && selectedInstance == None && selectedBone == None && elementsAtCursor == [] && cycleIndex == 0
    {
      var els := ElementsAt(probe.sprite, probe.point, probe.body);
      if els != [] {
        SelectAt(els, near, viewportPos, endPoint);
      } else if IsSet(selectedSpriteType) {
        CreateInstanceAt(viewportPos, probe.createPoint, probe.createBody, attachAt);
      } else {
        selectedInstance, selectedBone := None, None;
        elementsAtCursor, cycleIndex := [], 0;
      }
      lastClick := Some(screenPos);
    }

    /** `_complete_current_operation`: a finished drag or rotation that
        changed its value by more than 0.1 is pushed straight onto the undo
        stack (bypassing the history limit) and the redo stack is emptied;
        the operation state is cleared either way. */
    method CompleteCurrentOperation()
      requires Valid()
      modifies this`operationInProgress, this`dragStartOffset, this`dragStartRotation,
        history`undoStack, history`redoStack
      ensures Valid()
      ensures history.state == old(history.state)
      ensures !(old(operationInProgress) && Chosen(selectedInstance, history.state)) ==>
        history.undoStack == old(history.undoStack) && history.redoStack == old(history.redoStack)
        && operationInProgress == old(operationInProgress) && dragStartOffset == old(dragStartOffset)
      ensures old(operationInProgress) && Chosen(selectedInstance, history.state) ==>
        var r := OperationRecord(history.state, selectedInstance.value, draggingInstance, old(dragStartOffset),
                                 rotating, old(dragStartRotation));
        && !operationInProgress && dragStartOffset == None && dragStartRotation == None
        && (r.None? ==> history.undoStack == old(history.undoStack) && history.redoStack == old(history.redoStack))
        && (r.Some? ==> history.undoStack == old(history.undoStack) + [r.value] && history.redoStack == [])
    {
      if !operationInProgress || !Chosen(selectedInstance, history.state) {
        return;
      }
      var r := OperationRecord(history.state, selectedInstance.value, draggingInstance, dragStartOffset,
                               rotating, dragStartRotation);
      if r.Some? {
        history.RecordPerformed(r.value);
      }
      operationInProgress := false;
      dragStartOffset, dragStartRotation := None, None;
    }

    /** `_complete_hierarchy_sprite_drag`: dropping a sprite on a bone row
        attaches it there by command when the bone or point differs, and
        then zeroes its offset outside the command. */
    method CompleteHierarchyDrag()
      requires Valid()
      modifies history`state, history`undoStack, history`redoStack
      ensures Valid()
      ensures !(draggingHierarchySprite && IsSet(hierarchyDragSprite) && IsSet(dropTarget)
                && hierarchyDragSprite.value in old(history.state)) ==>
        history.state == old(history.state) && history.undoStack == old(history.undoStack)
      ensures draggingHierarchySprite && IsSet(hierarchyDragSprite) && IsSet(dropTarget)
              && hierarchyDragSprite.value in old(history.state) ==>
        var id := hierarchyDragSprite.value; var i := old(history.state)[id];
        if i.boneName == dropTarget && i.boneAttachmentPoint == dropPoint then
          history.state == old(history.state) && history.undoStack == old(history.undoStack)
        else
          history.state == old(history.state)[id := i.(boneName := dropTarget, boneAttachmentPoint := dropPoint,
                                                      offsetX := 0.0, offsetY := 0.0)]
    {
      if !draggingHierarchySprite || !IsSet(hierarchyDragSprite) {
        return;
      }
      if IsSet(dropTarget) && hierarchyDragSprite.value in history.state {
        var id := hierarchyDragSprite.value;
        var e := DropEdit(history.state, id, dropTarget.value, dropPoint);
        if e.Some? {
          Issue(e);
          history.state := history.state[id := history.state[id].(offsetX := 0.0, offsetY := 0.0)];
        }
      }
    }
  }

  /** `_create_sprite_instance_at_position` as written, returning the
      stored dictionary and the caller's `instance` object. The create
      command stores its own deep copy of the new instance; the attach
      command that follows holds the caller's object, and the offset
      assignments after it change that object too, so neither reaches the
      dictionary. */
  function CreatedAsWritten(d: Instances, id: string, spriteName: string, bone: string, point: AttachmentPoint,
                            offset: (real, real)): (r: (Instances, SpriteInstance))
    ensures r.1.boneName == Some(bone) && r.1.boneAttachmentPoint == point
    ensures r.1.offsetX == offset.0 && r.1.offsetY == offset.1
    ensures r.0.Keys == d.Keys + {id}
  {
    var instance := SpriteInstance(id, spriteName);
    var stored := SC.CreateExecute(SC.Create(id, instance), d);
    var attach := SC.AttachInstance(None, Some(bone), Start, point);
    var instance' := SC.AttachExecute(attach, instance);
    var instance'' := instance'.(offsetX := offset.0, offsetY := offset.1);
    (stored, instance'')
  }

  /** So the instance created on a bone is stored without any bone and at
      offset (0, 0), whatever the click's position: the attachment and the
      placement are lost. */
  lemma CreatedAsWrittenUnattached(d: Instances, id: string, spriteName: string, bone: string,
                                   point: AttachmentPoint, offset: (real, real))
    ensures var r := CreatedAsWritten(d, id, spriteName, bone, point, offset);
      && id in r.0 && r.0[id].boneName == None && r.0[id] != r.1
      && r.0[id].offsetX == 0.0 && r.0[id].offsetY == 0.0
  {
  }
}
