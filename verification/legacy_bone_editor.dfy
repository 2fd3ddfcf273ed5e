/** The rules of the older bone editor, pyspine/old_pyspine/bone_editor.py,
    which keeps its bones in the `data_objects['bones']` dictionary of a
    `UniversalEditor` and its selection in `selected_objects['bones']`.
    Here those are the fields `bones` and `selection`; the `Command`
    records the editor sends to its `UniversalEditor` history are modelled
    by the UniversalEditor module and are reported here only as a flag
    saying whether one was sent. */
module LegacyBoneEditor {
  import opened Types
  import BC = BoneCommands
  import opened BoneHierarchy
  import Names
  import BoneEditor
  import BP = BonePlacement

  /** One bone after the relationship update of `rename_object`: a parent
      link to `o` now names `n`, and the first `o` among the children
      becomes `n`. */
  function RelinkBone(b: Bone, o: string, n: string): Bone {
    b.(parent := if b.parent == Some(o) then Some(n) else b.parent,
       children := ReplaceFirst(b.children, o, n))
  }

  /** Every bone after the relationship update. */
  function Relinked(bones: Bones, o: string, n: string): (r: Bones)
    ensures r.Keys == bones.Keys
  {
    map k | k in bones :: RelinkBone(bones[k], o, n)
  }

  /** `rename_object`'s generic part: the object leaves the old key, takes
      the new name and is stored under the new key. */
  function Rekeyed(bones: Bones, o: string, n: string): (r: Bones)
    requires o in bones
    ensures r.Keys == bones.Keys - {o} + {n}
    ensures r[n] == bones[o].(name := n)
    ensures forall k :: k in bones && k != o && k != n ==> r[k] == bones[k]
  {
    (bones - {o})[n := bones[o].(name := n)]
  }

  /** A list without repeats loses `o` when its first `o` is renamed. */
  lemma {:induction false} ReplaceFirstRemoves(s: seq<string>, o: string, n: string)
    requires NoDup(s) && o != n
    ensures o !in ReplaceFirst(s, o, n)
    ensures o in s ==> n in ReplaceFirst(s, o, n)
  {
    if s != [] {
      assert s == [s[0]] + s[1..];
      assert multiset(s) == multiset{s[0]} + multiset(s[1..]);
      if s[0] == o {
        assert multiset(s)[o] <= 1;
        assert multiset(s[1..])[o] == 0;
        assert ReplaceFirst(s, o, n) == [n] + s[1..];
      } else {
        assert NoDup(s[1..]) by {
          forall x ensures multiset(s[1..])[x] <= 1 {
            assert multiset(s)[x] <= 1;
          }
        }
        ReplaceFirstRemoves(s[1..], o, n);
        assert ReplaceFirst(s, o, n) == [s[0]] + ReplaceFirst(s[1..], o, n);
      }
    }
  }

  /** After the relationship update no bone's parent or (repeat-free)
      children list mentions the old name, and every former mention now
      names the new one. */
  lemma RelinkedForgetsOldName(bones: Bones, o: string, n: string)
    requires o != n
    requires forall k :: k in bones ==> NoDup(bones[k].children)
    ensures var r := Relinked(bones, o, n);
      forall k :: k in r ==>
        && r[k].parent != Some(o) && o !in r[k].children
        && (bones[k].parent == Some(o) ==> r[k].parent == Some(n))
        && (o in bones[k].children ==> n in r[k].children)
        && r[k].(parent := bones[k].parent, children := bones[k].children) == bones[k]
  {
    forall k | k in bones
      ensures o !in ReplaceFirst(bones[k].children, o, n)
      ensures o in bones[k].children ==> n in ReplaceFirst(bones[k].children, o, n)
    {
      ReplaceFirstRemoves(bones[k].children, o, n);
    }
  }

  /** Renaming the references back undoes them when the new name was not
      mentioned anywhere before. */
  lemma RelinkedBack(bones: Bones, o: string, n: string)
    requires forall k :: k in bones ==> bones[k].parent != Some(n) && n !in bones[k].children
    ensures Relinked(Relinked(bones, o, n), n, o) == bones
  {
    var r := Relinked(Relinked(bones, o, n), n, o);
    forall k | k in bones
      ensures r[k] == bones[k]
    {
      ReplaceFirstBack(bones[k].children, o, n);
    }
  }

  /** The editor state the rules below act on. */
  class LegacyBoneEditor {
    var bones: Bones
    var selection: seq<string>
    /** `bone_start_pos`: where the cursor went down to create a bone. */
    var boneStartPos: Option<(real, real)>
    /** The end point of a bone, which `update_child_bone_positions` and
        `update_bone_attachment_position` use. */
    const tip: BP.EndPoint

    constructor (bones: Bones, tip: BP.EndPoint)
      ensures this.bones == bones && selection == [] && boneStartPos == None && this.tip == tip
    {
      this.bones := bones;
      this.tip := tip;
      selection := [];
      boneStartPos := None;
    }

    /** `start_bone_creation`: the press point is kept and the selection
        cleared. */
    method StartBoneCreation(p: (real, real))
      modifies this`boneStartPos, this`selection
      ensures boneStartPos == Some(p) && selection == []
    {
      boneStartPos := Some(p);
      selection := [];
    }

    /** `complete_bone_creation` with the length and angle of the drag from
        the press point and the attachment-point query's answer at the press
        point. A drag longer than 10 creates, through a "create" record, a
        bone under the next free "bone_" name, attached to the bone found
        (at END when none is), then lists it among that parent's children
        and selects it alone; the press point is forgotten either way. The
        "create" record followed by that append has the same effect as
        `CreateBoneCommand.execute`. */
    method CompleteBoneCreation(length: real, angle: real, attach: Option<(string, AttachmentPoint)>)
      returns (created: Option<string>)
      modifies this`bones, this`selection, this`boneStartPos
      ensures boneStartPos == None
      ensures created.Some? <==> old(boneStartPos).Some? && length > 10.0
      ensures created.None? ==> bones == old(bones) && selection == old(selection)
      ensures created.Some? ==>
        var name := created.value;
        var bone := Bone(name, old(boneStartPos).value.0, old(boneStartPos).value.1, length, angle,
                         if attach.Some? then Some(attach.value.0) else None,
                         if attach.Some? then attach.value.1 else End);
        && name !in old(bones)
        && (exists k: nat ::
              k >= 1 && name == "bone_" + Names.Digits(k)
              && !Names.SuffixUsed(old(bones).Keys, "bone_", k)
              && forall j :: 1 <= j < k ==> Names.SuffixUsed(old(bones).Keys, "bone_", j))
        && bones == BC.CreateExecute(BC.CreateBone(bone), old(bones))
        && selection == [name]
    {
      created := None;
      if boneStartPos.None? {
        return;
      }
      var (x, y) := boneStartPos.value;
      if length > 10.0 {
        var name, k := Names.NextFreeName(bones.Keys, "bone_");
        var parent := if attach.Some? then Some(attach.value.0) else None;
        var bone := Bone(name, x, y, length, angle, parent, if attach.Some? then attach.value.1 else End);
        bones := bones[name := bone];
        if IsSet(parent) && parent.value in bones {
          bones := BC.AddChild(bones, parent.value, name);
        }
        selection := [name];
        created := Some(name);
      }
      boneStartPos := None;
    }

    /** `update_bone_start_drag`: the first selected bone starts at the
        cursor and `update_child_bone_positions` carries its subtree. */
    method UpdateStartDrag(p: (real, real))
      requires selection != [] ==> selection[0] in bones
      modifies this`bones
      ensures selection == [] ==> bones == old(bones)
      ensures selection != [] ==>
        var n := selection[0];
        bones == BP.Reposition(old(bones)[n := old(bones)[n].(x := p.0, y := p.1)], n, tip)
    {
      if selection == [] {
        return;
      }
      var n := selection[0];
      bones := BP.Reposition(bones[n := bones[n].(x := p.0, y := p.1)], n, tip);
    }

    /** `update_bone_end_drag` with the cursor's distance and angle from
        the first selected bone's start: the same rule as the current
        editor's, ignoring a point closer than 5; only a bone that changed
        has its subtree carried. */
    method UpdateEndDrag(newLength: real, newAngle: real)
      requires selection != [] ==> selection[0] in bones
      modifies this`bones
      ensures selection == [] || newLength <= 5.0 ==> bones == old(bones)
      ensures selection != [] && newLength > 5.0 ==>
        var n := selection[0];
        bones == BP.Reposition(old(bones)[n := BoneEditor.EndDragged(old(bones)[n], newLength, newAngle)], n, tip)
    {
      if selection == [] {
        return;
      }
      var n := selection[0];
      if newLength > 5.0 {
        bones := BP.Reposition(bones[n := BoneEditor.EndDragged(bones[n], newLength, newAngle)], n, tip);
      }
    }

    /** `update_bone_body_drag` with `drag_offset`, the press point's offset
        from the bone's start: the bone keeps that offset from the cursor and
        its subtree follows. */
    method UpdateBodyDrag(p: (real, real), offset: (real, real))
      requires selection != [] ==> selection[0] in bones
      modifies this`bones
      ensures selection == [] ==> bones == old(bones)
      ensures selection != [] ==>
        var n := selection[0];
        bones == BP.Reposition(old(bones)[n := BoneEditor.BodyDragged(old(bones)[n], offset, p)], n, tip)
    {
      if selection == [] {
        return;
      }
      var n := selection[0];
      bones := BP.Reposition(bones[n := BoneEditor.BodyDragged(bones[n], offset, p)], n, tip);
    }

    /** `rename_object` for bones: false for an unknown old name;
        otherwise the bone moves to the new key with its new name, the
        selection entry follows, and then the loop over every bone rewrites
        the parent links and children lists. */
    method RenameObject(o: string, n: string) returns (ok: bool)
      modifies this
      ensures ok <==> o in old(bones)
      ensures !ok ==> bones == old(bones) && selection == old(selection)
      ensures ok ==>
        (bones == Relinked(Rekeyed(old(bones), o, n), o, n)
         && selection == ReplaceFirst(old(selection), o, n))
    {
      if o !in bones {
        return false;
      }
      var obj := bones[o];
      bones := (bones - {o})[n := obj.(name := n)];
      selection := ReplaceFirst(selection, o, n);
      ghost var start := bones;
      var todo := bones.Keys;
      while todo != {}
        invariant todo <= start.Keys && bones.Keys == start.Keys
        invariant selection == ReplaceFirst(old(selection), o, n)
        invariant forall k :: k in bones ==> bones[k] == if k in todo then start[k] else RelinkBone(start[k], o, n)
        decreases |todo|
      {
        var k :| k in todo;
        bones := bones[k := RelinkBone(bones[k], o, n)];
        todo := todo - {k};
      }
      assert bones == Relinked(start, o, n);
      return true;
    }

    /** `delete_selected`: the first selected bone leaves its parent's
        children, each of its children present in the dictionary takes its
        parent and is listed once under that grandparent, then a delete
        command removes it and the selection is cleared. When the bone is
        not its own child this is exactly what `DeleteBoneCommand.execute`
        does. */
    method DeleteSelected()
      requires selection != [] ==> selection[0] in bones
      modifies this
      ensures old(selection) == [] ==> bones == old(bones) && selection == old(selection)
      ensures old(selection) != [] ==>
        var name := old(selection)[0];
        && selection == []
        && bones.Keys == old(bones).Keys - {name}
        && (name !in old(bones)[name].children ==>
              bones == BC.DeleteExecute(BC.NewDeleteBone(old(bones), name), old(bones)))
    {
      if selection == [] {
        return;
      }
      var name := selection[0];
      var b := bones[name];
      ghost var d := bones;
      bones := BC.Unlink(bones, name, b);
      ghost var u := bones;
      var kids := bones[name].children;
      var i := 0;
      while i < |kids|
        invariant 0 <= i <= |kids|
        invariant bones == BC.Adopt(u, kids[..i], b.parent)
      {
        assert kids[..i + 1][..i] == kids[..i];
        bones := BC.AdoptOne(bones, kids[i], b.parent);
        i := i + 1;
      }
      assert kids[..i] == kids;
      AdoptKeys(u, kids, b.parent);
      OwnChildrenRead(d, name);
      bones := bones - {name};
      selection := [];
    }

    /** `change_selected_bone_layer_order(delta)`: the order becomes
        max(0, order + delta), and a command is sent only when it changed. */
    method ChangeLayerOrder(delta: int) returns (recorded: bool)
      requires selection != [] ==> selection[0] in bones
      modifies this`bones
      ensures selection == [] ==> !recorded && bones == old(bones)
      ensures selection != [] ==>
        var n := selection[0]; var o := old(bones)[n].layerOrder;
        && bones == old(bones)[n := old(bones)[n].(layerOrder := MaxI(0, o + delta))]
        && bones[n].layerOrder >= 0
        && (recorded <==> MaxI(0, o + delta) != o)
    {
      recorded := false;
      if selection == [] {
        return;
      }
      var n := selection[0];
      var bone := bones[n];
      var newOrder := MaxI(0, bone.layerOrder + delta);
      if newOrder != bone.layerOrder {
        bones := bones[n := bone.(layerOrder := newOrder)];
        recorded := true;
      }
    }

    /** `set_selected_bone_layer`: a change (and a command) only when the
        layer differs. */
    method SetLayer(layer: BoneLayer) returns (recorded: bool)
      requires selection != [] ==> selection[0] in bones
      modifies this`bones
      ensures selection == [] ==> !recorded && bones == old(bones)
      ensures selection != [] ==>
        var n := selection[0];
        && bones == old(bones)[n := old(bones)[n].(layer := layer)]
        && (recorded <==> old(bones)[n].layer != layer)
    {
      recorded := false;
      if selection == [] {
        return;
      }
      var n := selection[0];
      var bone := bones[n];
      if bone.layer != layer {
        bones := bones[n := bone.(layer := layer)];
        recorded := true;
      }
    }

    /** `cycle_selected_bone_layer`: always a change and a command. */
    method CycleLayer() returns (recorded: bool)
      requires selection != [] ==> selection[0] in bones
      modifies this`bones
      ensures recorded <==> selection != []
      ensures selection == [] ==> bones == old(bones)
      ensures selection != [] ==>
        var n := selection[0];
        bones == old(bones)[n := old(bones)[n].(layer := NextLayer(old(bones)[n].layer))]
    {
      recorded := false;
      if selection == [] {
        return;
      }
      var n := selection[0];
      var bone := bones[n];
      bones := bones[n := bone.(layer := NextLayer(bone.layer))];
      recorded := true;
    }

    /** `toggle_selected_bone_attachment`: refused for a bone without a
        parent; otherwise START and END swap,
        `update_bone_attachment_position` moves the bone to the new point of
        its parent (when that parent is a bone) with its subtree, and a
        command is sent. */
    method ToggleAttachment() returns (recorded: bool)
      requires selection != [] ==> selection[0] in bones
      modifies this`bones
      ensures recorded <==> selection != [] && IsSet(old(bones)[selection[0]].parent)
      ensures !recorded ==> bones == old(bones)
      ensures recorded ==>
        var n := selection[0]; var p := old(bones)[n].parentAttachmentPoint;
        bones == BP.Realign(old(bones)[n := old(bones)[n].(parentAttachmentPoint := if p == End then Start else End)], n, tip)
    {
      recorded := false;
      if selection == [] {
        return;
      }
      var n := selection[0];
      var bone := bones[n];
      if !IsSet(bone.parent) {
        return;
      }
      bones := BP.Realign(bones[n := bone.(parentAttachmentPoint := if bone.parentAttachmentPoint == End then Start else End)], n, tip);
      recorded := true;
    }

    /** `clear_all_bones`: one delete command per bone, in some order of the
        keys, after which the dictionary and the selection are empty. */
    method ClearAllBones() returns (deleted: seq<string>)
      modifies this
      ensures bones == map[]
      ensures old(bones) == map[] ==> deleted == [] && selection == old(selection)
      ensures old(bones) != map[] ==> selection == []
      ensures forall k :: k in deleted <==> k in old(bones)
      ensures |deleted| == |old(bones)|
    {
      deleted := [];
      if bones == map[] {
        return;
      }
      ghost var start := bones.Keys;
      while bones != map[]
        invariant bones.Keys <= start
        invariant forall k :: k in deleted <==> k in start && k !in bones
        invariant |deleted| + |bones| == |start|
        decreases |bones|
      {
        var k :| k in bones;
        deleted := deleted + [k];
        bones := bones - {k};
      }
      selection := [];
    }
  }

  /** The children list the loop reads after unlinking is the one the
      delete command saved, unless the bone lists itself as a child. */
  lemma OwnChildrenRead(d: Bones, name: string)
    requires name in d
    ensures var u := BC.Unlink(d, name, d[name]);
      name in u && (name !in d[name].children ==>
        BC.Adopt(u, u[name].children, d[name].parent) - {name}
        == BC.DeleteExecute(BC.NewDeleteBone(d, name), d))
  {
    var b := d[name];
    var u := BC.Unlink(d, name, b);
    if name !in b.children {
      assert u[name].children == b.children by {
        if BC.HasParentIn(b, d) && b.parent.value == name {
          assert u[name].children == RemoveFirst(b.children, name);
        }
      }
    }
  }

  /** The adoption loop keeps the keys. */
  lemma {:induction false} AdoptKeys(d: Bones, kids: seq<string>, np: Option<string>)
    ensures BC.Adopt(d, kids, np).Keys == d.Keys
    decreases |kids|
  {
    if kids != [] {
      AdoptKeys(d, kids[..|kids| - 1], np);
    }
  }
}
