/** The bone edit commands of pyspine/bone_commands.py.

    `CreateBoneCommand` and `DeleteBoneCommand` edit the shared bone
    dictionary; here that dictionary is the field `bones` of `BoneStore`,
    whose methods are proved equal to the functions `CreateExecute`,
    `CreateUndo`, `DeleteExecute` and `DeleteUndo`. The field commands
    (move, rotate, layer, attachment point) hold a reference to one bone in
    Python; here they are functions from the bone record before to the bone
    record after. Their optional `update_children_func` /
    `update_position_func` callbacks are applied by the bone editor's
    `Exec` and `Unexec`, through the BonePlacement module. */
module BoneCommands {
  import opened Types

  // ----- Editing one entry of the dictionary ----------------------------------

  /** `bone.parent and bone.parent in bones_dict`. */
  predicate HasParentIn(b: Bone, d: Bones) {
    IsSet(b.parent) && b.parent.value in d
  }

  /** `if c not in parent.children: parent.children.append(c)`. */
  function AddChild(d: Bones, p: string, c: string): (r: Bones)
    ensures r.Keys == d.Keys
    ensures forall b :: b in d && b != p ==> r[b] == d[b]
    ensures p in d ==> r[p] == d[p].(children := AppendOnce(d[p].children, c))
  {
    if p in d then d[p := d[p].(children := AppendOnce(d[p].children, c))] else d
  }

  /** `if c in parent.children: parent.children.remove(c)`. */
  function DropChild(d: Bones, p: string, c: string): (r: Bones)
    ensures r.Keys == d.Keys
    ensures forall b :: b in d && b != p ==> r[b] == d[b]
    ensures p in d ==> r[p] == d[p].(children := RemoveFirst(d[p].children, c))
  {
    if p in d then d[p := d[p].(children := RemoveFirst(d[p].children, c))] else d
  }

  /** `child_bone.parent = p` for a bone in the dictionary. */
  function SetParentOf(d: Bones, c: string, p: Option<string>): (r: Bones)
    ensures r.Keys == d.Keys
    ensures forall b :: b in d && b != c ==> r[b] == d[b]
    ensures c in d ==> r[c] == d[c].(parent := p)
  {
    if c in d then d[c := d[c].(parent := p)] else d
  }

  // ----- CreateBoneCommand ----------------------------------------------------

  /** The command holds a copy of the bone; its name is the key. */
  datatype CreateBone = CreateBone(bone: Bone)

  function CreateExecute(c: CreateBone, d: Bones): (r: Bones)
    ensures r.Keys == d.Keys + {c.bone.name}
  {
    var d1 := d[c.bone.name := c.bone];
    if HasParentIn(c.bone, d1) then AddChild(d1, c.bone.parent.value, c.bone.name) else d1
  }

  function CreateUndo(c: CreateBone, d: Bones): (r: Bones)
    ensures r.Keys == d.Keys - {c.bone.name}
  {
    var d1 := if HasParentIn(c.bone, d) then DropChild(d, c.bone.parent.value, c.bone.name) else d;
    if c.bone.name in d1 then d1 - {c.bone.name} else d1
  }

  /** `execute` stores the bone under its name and lists it once among the
      children of an existing parent; no other bone changes. */
  lemma CreateExecuteEffect(c: CreateBone, d: Bones)
    requires IsSet(c.bone.parent) ==> c.bone.parent.value != c.bone.name
    ensures var r := CreateExecute(c, d);
      && c.bone.name in r && r[c.bone.name] == c.bone
      && (HasParentIn(c.bone, d) ==>
            var p := c.bone.parent.value;
            && c.bone.name in r[p].children
            && multiset(r[p].children)[c.bone.name] == (if c.bone.name in d[p].children then multiset(d[p].children)[c.bone.name] else 1)
            && r[p].(children := d[p].children) == d[p])
      && (forall b :: b in d && b != c.bone.name && (IsSet(c.bone.parent) ==> b != c.bone.parent.value) ==> r[b] == d[b])
  {
    var n := c.bone.name;
    if HasParentIn(c.bone, d) {
      var p := c.bone.parent.value;
      var s := d[p].children;
      if n !in s {
        assert multiset(s + [n]) == multiset(s) + multiset{n};
      }
    }
  }

  /** Whatever the dictionary, `undo` removes the bone, and when the parent
      listed it at most once, removes it from the parent's children too. */
  lemma CreateUndoEffect(c: CreateBone, d: Bones)
    ensures var r := CreateUndo(c, d);
      && c.bone.name !in r
      && (HasParentIn(c.bone, d) && c.bone.parent.value != c.bone.name && multiset(d[c.bone.parent.value].children)[c.bone.name] <= 1 ==>
            c.bone.name !in r[c.bone.parent.value].children)
  {
    if HasParentIn(c.bone, d) && multiset(d[c.bone.parent.value].children)[c.bone.name] <= 1 {
      var p := c.bone.parent.value;
      var r := RemoveFirst(d[p].children, c.bone.name);
      assert multiset(r)[c.bone.name] == 0;
    }
  }

  lemma RemoveFirstAppended<T>(s: seq<T>, x: T)
    requires x !in s
    ensures RemoveFirst(s + [x], x) == s
  {
    if s != [] {
      assert (s + [x])[1..] == s[1..] + [x];
      RemoveFirstAppended(s[1..], x);
    }
  }

  /** Creating a bone whose name is new, under a parent that does not list
      it yet, and undoing gives back the dictionary exactly. */
  lemma CreateRoundTrip(c: CreateBone, d: Bones)
    requires c.bone.name !in d
    requires IsSet(c.bone.parent) ==> c.bone.parent.value != c.bone.name
    requires HasParentIn(c.bone, d) ==> c.bone.name !in d[c.bone.parent.value].children
    ensures CreateUndo(c, CreateExecute(c, d)) == d
  {
    var n := c.bone.name;
    var r := CreateUndo(c, CreateExecute(c, d));
    if HasParentIn(c.bone, d) {
      var p := c.bone.parent.value;
      RemoveFirstAppended(d[p].children, n);
      assert r[p] == d[p];
    }
    assert forall b :: b in r ==> r[b] == d[b];
  }

  // ----- DeleteBoneCommand ----------------------------------------------------

  /** `bone` is the snapshot taken at construction (`None` for an unknown
      name) and `childUpdates` the children that were then in the
      dictionary. */
  datatype DeleteBone = DeleteBone(name: string, bone: Option<Bone>, childUpdates: seq<string>)

  /** The children of `s` that are keys of `d`, in order. */
  function Present(s: seq<string>, d: Bones): (r: seq<string>)
    ensures forall x :: x in r <==> x in s && x in d
  {
    if s == [] then [] else (if s[0] in d then [s[0]] else []) + Present(s[1..], d)
  }

  function NewDeleteBone(d: Bones, name: string): (c: DeleteBone)
    ensures c.name == name
    ensures c.bone.Some? <==> name in d
    ensures c.bone.Some? ==> c.bone.value == d[name]
    ensures forall k :: k in c.childUpdates <==> name in d && k in d[name].children && k in d
  {
    if name in d then DeleteBone(name, Some(d[name]), Present(d[name].children, d))
    else DeleteBone(name, None, [])
  }

  /** One turn of the loop of `execute`: the child takes the deleted bone's
      parent and is listed once under it. */
  function AdoptOne(d: Bones, k: string, np: Option<string>): Bones {
    if k in d then
      var d1 := SetParentOf(d, k, np);
      if IsSet(np) && np.value in d1 then AddChild(d1, np.value, k) else d1
    else d
  }

  /** The loop of `execute` over the deleted bone's children. */
  function Adopt(d: Bones, kids: seq<string>, np: Option<string>): Bones
    decreases |kids|
  {
    if kids == [] then d else AdoptOne(Adopt(d, kids[..|kids| - 1], np), kids[|kids| - 1], np)
  }

  /** One turn of the loop of `undo`: the child gets the restored bone as
      parent again and leaves the grandparent's children. */
  function ReclaimOne(d: Bones, k: string, name: string, gp: Option<string>): Bones {
    if k in d then
      var d1 := SetParentOf(d, k, Some(name));
      if IsSet(gp) && gp.value in d1 then DropChild(d1, gp.value, k) else d1
    else d
  }

  function Reclaim(d: Bones, kids: seq<string>, name: string, gp: Option<string>): Bones
    decreases |kids|
  {
    if kids == [] then d else ReclaimOne(Reclaim(d, kids[..|kids| - 1], name, gp), kids[|kids| - 1], name, gp)
  }

  /** The first step of `execute`: the bone leaves its parent's children. */
  function Unlink(d: Bones, name: string, b: Bone): Bones {
    if HasParentIn(b, d) then DropChild(d, b.parent.value, name) else d
  }

  function DeleteExecute(c: DeleteBone, d: Bones): Bones {
    if c.bone.None? || c.name !in d then d
    else
      var b := c.bone.value;
      Adopt(Unlink(d, c.name, b), b.children, b.parent) - {c.name}
  }

  /** The first step of `undo` after restoring the bone: it rejoins its
      parent's children. */
  function Relink(d: Bones, name: string, b: Bone): Bones {
    if HasParentIn(b, d) then AddChild(d, b.parent.value, name) else d
  }

  function DeleteUndo(c: DeleteBone, d: Bones): Bones {
    if c.bone.None? then d
    else
      var b := c.bone.value;
      Reclaim(Relink(d[c.name := b], c.name, b), c.childUpdates, c.name, b.parent)
  }

  /** What the loop of `execute` does to the children: every listed child
      present in the dictionary gets parent `np` and nothing else; every
      bone other than the listed children and the new parent is untouched. */
  lemma {:induction false} AdoptFacts(d: Bones, kids: seq<string>, np: Option<string>)
    requires IsSet(np) ==> np.value !in kids
    ensures Adopt(d, kids, np).Keys == d.Keys
    ensures forall b :: b in d && b !in kids && (IsSet(np) ==> b != np.value) ==> Adopt(d, kids, np)[b] == d[b]
    ensures forall k :: k in kids && k in d ==> Adopt(d, kids, np)[k] == d[k].(parent := np)
    decreases |kids|
  {
    if kids != [] {
      var init := kids[..|kids| - 1];
      var k := kids[|kids| - 1];
      assert forall x :: x in kids <==> x in init || x == k;
      AdoptFacts(d, init, np);
    }
  }

  /** What the loop of `execute` does to the new parent `np`: it gains
      exactly the listed children present in the dictionary, each once. */
  lemma {:induction false} AdoptParentFacts(d: Bones, kids: seq<string>, np: Option<string>)
    requires IsSet(np) && np.value in d && np.value !in kids
    ensures np.value in Adopt(d, kids, np)
    ensures Adopt(d, kids, np)[np.value].(children := d[np.value].children) == d[np.value]
    ensures forall x :: x in Adopt(d, kids, np)[np.value].children <==> x in d[np.value].children || (x in kids && x in d)
    ensures NoDup(d[np.value].children) ==> NoDup(Adopt(d, kids, np)[np.value].children)
    decreases |kids|
  {
    if kids != [] {
      var init := kids[..|kids| - 1];
      var k := kids[|kids| - 1];
      assert forall x :: x in kids <==> x in init || x == k;
      AdoptFacts(d, init, np);
      AdoptParentFacts(d, init, np);
      var m := Adopt(d, init, np);
      var g := np.value;
      if k in m && NoDup(m[g].children) {
        AppendOnceNoDup(m[g].children, k);
      }
    }
  }

  /** What the loop of `undo` does to the children: every listed child
      present in the dictionary gets parent `name`; every bone other than
      the listed children and the grandparent is untouched. */
  lemma {:induction false} ReclaimFacts(d: Bones, kids: seq<string>, name: string, gp: Option<string>)
    requires IsSet(gp) ==> gp.value !in kids
    ensures Reclaim(d, kids, name, gp).Keys == d.Keys
    ensures forall b :: b in d && b !in kids && (IsSet(gp) ==> b != gp.value) ==> Reclaim(d, kids, name, gp)[b] == d[b]
    ensures forall k :: k in kids && k in d ==> Reclaim(d, kids, name, gp)[k] == d[k].(parent := Some(name))
    decreases |kids|
  {
    if kids != [] {
      var init := kids[..|kids| - 1];
      var k := kids[|kids| - 1];
      assert forall x :: x in kids <==> x in init || x == k;
      ReclaimFacts(d, init, name, gp);
    }
  }

  /** What the loop of `undo` does to the grandparent: the listed children
      present in the dictionary leave its children, which keep no
      duplicates. */
  lemma {:induction false} ReclaimParentFacts(d: Bones, kids: seq<string>, name: string, gp: Option<string>)
    requires IsSet(gp) && gp.value in d && gp.value !in kids && NoDup(d[gp.value].children)
    ensures gp.value in Reclaim(d, kids, name, gp)
    ensures Reclaim(d, kids, name, gp)[gp.value].(children := d[gp.value].children) == d[gp.value]
    ensures NoDup(Reclaim(d, kids, name, gp)[gp.value].children)
    ensures forall x :: x in Reclaim(d, kids, name, gp)[gp.value].children <==> x in d[gp.value].children && !(x in kids && x in d)
    decreases |kids|
  {
    if kids != [] {
      var init := kids[..|kids| - 1];
      var k := kids[|kids| - 1];
      assert forall x :: x in kids <==> x in init || x == k;
      ReclaimFacts(d, init, name, gp);
      ReclaimParentFacts(d, init, name, gp);
      var m := Reclaim(d, init, name, gp);
      var g := gp.value;
      assert Reclaim(d, kids, name, gp) == ReclaimOne(m, k, name, gp);
      if k in m {
        var m1 := SetParentOf(m, k, Some(name));
        assert m1[g] == m[g];
        RemoveFirstNoDup(m[g].children, k);
        assert ReclaimOne(m, k, name, gp)[g] == m[g].(children := RemoveFirst(m[g].children, k));
      }
    }
  }

  /** A name that was unknown at construction makes both directions no-ops. */
  lemma DeleteUnknownIsNoOp(d: Bones, name: string, e: Bones)
    requires name !in d
    ensures DeleteExecute(NewDeleteBone(d, name), e) == e
    ensures DeleteUndo(NewDeleteBone(d, name), e) == e
  {
  }

  /** `execute` removes the bone and its entry in the parent's children;
      each child present in the dictionary takes the deleted bone's parent
      and is listed under that grandparent; no other bone changes. */
  lemma DeleteExecuteEffect(d: Bones, name: string)
    requires name in d && name !in d[name].children
    requires IsSet(d[name].parent) ==> d[name].parent.value != name && d[name].parent.value !in d[name].children
    ensures var b := d[name];
      var r := DeleteExecute(NewDeleteBone(d, name), d);
      && r.Keys == d.Keys - {name}
      && (forall k :: k in b.children && k in d ==> r[k] == d[k].(parent := b.parent))
      && (forall x :: x in d && x != name && x !in b.children && (IsSet(b.parent) ==> x != b.parent.value) ==> r[x] == d[x])
  {
    var b := d[name];
    var d1 := Unlink(d, name, b);
    assert DeleteExecute(NewDeleteBone(d, name), d) == Adopt(d1, b.children, b.parent) - {name};
    AdoptFacts(d1, b.children, b.parent);
  }

  /** The grandparent's children after `execute`: the bone is gone and the
      bone's children present in the dictionary have joined, each once. */
  lemma DeleteExecuteGrandparent(d: Bones, name: string)
    requires name in d && name !in d[name].children
    requires IsSet(d[name].parent) ==> d[name].parent.value != name && d[name].parent.value !in d[name].children
    requires HasParentIn(d[name], d) && NoDup(d[d[name].parent.value].children)
    ensures var b := d[name];
      var g := b.parent.value;
      var r := DeleteExecute(NewDeleteBone(d, name), d);
      && g in r
      && r[g].(children := d[g].children) == d[g]
      && NoDup(r[g].children)
      && (forall x :: x in r[g].children <==> (x in d[g].children && x != name) || (x in b.children && x in d))
  {
    var b := d[name];
    var g := b.parent.value;
    var d1 := Unlink(d, name, b);
    assert d1[g] == d[g].(children := RemoveFirst(d[g].children, name));
    RemoveFirstNoDup(d[g].children, name);
    var a := Adopt(d1, b.children, b.parent);
    assert DeleteExecute(NewDeleteBone(d, name), d) == a - {name};
    AdoptParentFacts(d1, b.children, b.parent);
    assert (a - {name})[g] == a[g];
  }

  /** Delete then undo in a consistent neighbourhood (the bone is neither
      its own child nor its parent's parent): the bone is back as it was,
      each recorded child has the bone as parent again, and no bone other
      than the grandparent changes. */
  lemma DeleteRoundTrip(d: Bones, name: string)
    requires name in d && name !in d[name].children
    requires IsSet(d[name].parent) ==> d[name].parent.value != name && d[name].parent.value !in d[name].children
    ensures var b := d[name];
      var c := NewDeleteBone(d, name);
      var r := DeleteUndo(c, DeleteExecute(c, d));
      && r.Keys == d.Keys
      && r[name] == b
      && (forall k :: k in c.childUpdates ==> r[k] == d[k].(parent := Some(name)))
      && (forall x :: x in d && x != name && x !in b.children && (IsSet(b.parent) ==> x != b.parent.value) ==> r[x] == d[x])
  {
    var b := d[name];
    var c := NewDeleteBone(d, name);
    DeleteExecuteEffect(d, name);
    var e := DeleteExecute(c, d);
    var e2 := Relink(e[name := b], name, b);
    assert DeleteUndo(c, e) == Reclaim(e2, c.childUpdates, name, b.parent);
    ReclaimFacts(e2, c.childUpdates, name, b.parent);
  }

  /** The grandparent after delete then undo, when it lists no child twice:
      it lists the bone again (at the end) and no longer lists the recorded
      children. */
  lemma DeleteRoundTripGrandparent(d: Bones, name: string)
    requires name in d && name !in d[name].children
    requires IsSet(d[name].parent) ==> d[name].parent.value != name && d[name].parent.value !in d[name].children
    requires HasParentIn(d[name], d) && NoDup(d[d[name].parent.value].children)
    ensures var b := d[name];
      var g := b.parent.value;
      var c := NewDeleteBone(d, name);
      var r := DeleteUndo(c, DeleteExecute(c, d));
      && g in r
      && r[g].(children := d[g].children) == d[g]
      && (forall x :: x in r[g].children <==> (x in d[g].children && x !in c.childUpdates) || x == name)
  {
    var b := d[name];
    var g := b.parent.value;
    var c := NewDeleteBone(d, name);
    DeleteExecuteEffect(d, name);
    DeleteExecuteGrandparent(d, name);
    var e := DeleteExecute(c, d);
    var e1 := e[name := b];
    var e2 := Relink(e1, name, b);
    assert DeleteUndo(c, e) == Reclaim(e2, c.childUpdates, name, b.parent);
    AppendOnceNoDup(e1[g].children, name);
    assert e2[g] == e[g].(children := AppendOnce(e[g].children, name));
    ReclaimParentFacts(e2, c.childUpdates, name, b.parent);
  }

  // ----- Commands on one bone -------------------------------------------------

  /** `MoveBoneCommand`. */
  datatype MoveBone = MoveBone(oldX: real, oldY: real, newX: real, newY: real)

  function MoveExecute(c: MoveBone, b: Bone): Bone { b.(x := c.newX, y := c.newY) }
  function MoveUndo(c: MoveBone, b: Bone): Bone { b.(x := c.oldX, y := c.oldY) }

  /** Only the position changes, and undo after execute restores a bone
      whose position was recorded as the old one. */
  lemma MoveRoundTrip(c: MoveBone, b: Bone)
    ensures MoveExecute(c, b).x == c.newX && MoveExecute(c, b).y == c.newY
    ensures MoveExecute(c, b).(x := b.x, y := b.y) == b && MoveUndo(c, b).(x := b.x, y := b.y) == b
    ensures c.oldX == b.x && c.oldY == b.y ==> MoveUndo(c, MoveExecute(c, b)) == b
  {
  }

  /** `RotateBoneCommand`; an omitted length is the bone's length at
      construction. */
  datatype RotateBone = RotateBone(oldAngle: real, newAngle: real, oldLength: real, newLength: real)

  function NewRotateBone(b: Bone, oldAngle: real, newAngle: real, oldLength: Option<real>, newLength: Option<real>): RotateBone {
    RotateBone(oldAngle, newAngle,
      if oldLength.Some? then oldLength.value else b.length,
      if newLength.Some? then newLength.value else b.length)
  }

  function RotateExecute(c: RotateBone, b: Bone): Bone { b.(angle := c.newAngle, length := c.newLength) }
  function RotateUndo(c: RotateBone, b: Bone): Bone { b.(angle := c.oldAngle, length := c.oldLength) }

  /** With both lengths omitted the length survives both directions, and
      undo after execute restores the bone whose angle was recorded. */
  lemma RotateRoundTrip(b: Bone, oldAngle: real, newAngle: real, oldLength: Option<real>, newLength: Option<real>)
    ensures var c := NewRotateBone(b, oldAngle, newAngle, oldLength, newLength);
      && (oldLength.None? && newLength.None? ==> RotateExecute(c, b).length == b.length && RotateUndo(c, b).length == b.length)
      && RotateExecute(c, b).angle == newAngle
      && RotateExecute(c, b).(angle := b.angle, length := b.length) == b
      && (oldAngle == b.angle && (oldLength.None? || oldLength.value == b.length) ==> RotateUndo(c, RotateExecute(c, b)) == b)
  {
  }

  /** `ChangeBoneLayerCommand`; an omitted order is the bone's order at
      construction. */
  datatype ChangeLayer = ChangeLayer(oldLayer: BoneLayer, newLayer: BoneLayer, oldOrder: int, newOrder: int)

  function NewChangeLayer(b: Bone, oldLayer: BoneLayer, newLayer: BoneLayer, oldOrder: Option<int>, newOrder: Option<int>): ChangeLayer {
    ChangeLayer(oldLayer, newLayer,
      if oldOrder.Some? then oldOrder.value else b.layerOrder,
      if newOrder.Some? then newOrder.value else b.layerOrder)
  }

  function LayerExecute(c: ChangeLayer, b: Bone): Bone { b.(layer := c.newLayer, layerOrder := c.newOrder) }
  function LayerUndo(c: ChangeLayer, b: Bone): Bone { b.(layer := c.oldLayer, layerOrder := c.oldOrder) }

  lemma ChangeLayerRoundTrip(b: Bone, newLayer: BoneLayer, oldOrder: Option<int>, newOrder: Option<int>)
    ensures var c := NewChangeLayer(b, b.layer, newLayer, oldOrder, newOrder);
      && LayerExecute(c, b).layer == newLayer
      && LayerExecute(c, b).(layer := b.layer, layerOrder := b.layerOrder) == b
      && (newOrder.None? ==> LayerExecute(c, b).layerOrder == b.layerOrder)
      && (oldOrder.None? || oldOrder.value == b.layerOrder ==> LayerUndo(c, LayerExecute(c, b)) == b)
  {
  }

  /** `ChangeAttachmentPointCommand`. */
  datatype ChangeAttachment = ChangeAttachment(oldPoint: AttachmentPoint, newPoint: AttachmentPoint)

  function AttachmentExecute(c: ChangeAttachment, b: Bone): Bone { b.(parentAttachmentPoint := c.newPoint) }
  function AttachmentUndo(c: ChangeAttachment, b: Bone): Bone { b.(parentAttachmentPoint := c.oldPoint) }

  lemma ChangeAttachmentRoundTrip(b: Bone, newPoint: AttachmentPoint)
    ensures var c := ChangeAttachment(b.parentAttachmentPoint, newPoint);
      && AttachmentExecute(c, b).parentAttachmentPoint == newPoint
      && AttachmentExecute(c, b).(parentAttachmentPoint := b.parentAttachmentPoint) == b
      && AttachmentUndo(c, AttachmentExecute(c, b)) == b
  {
  }

  // ----- The shared dictionary ------------------------------------------------

  /** The `bones_dict` that the create and delete commands edit in place. */
  class BoneStore {
    var bones: Bones

    constructor (bones: Bones)
      ensures this.bones == bones
    {
      this.bones := bones;
    }

    method ExecuteCreate(c: CreateBone)
      modifies this
      ensures bones == CreateExecute(c, old(bones))
    {
      bones := bones[c.bone.name := c.bone];
      if IsSet(c.bone.parent) && c.bone.parent.value in bones {
        var p := c.bone.parent.value;
        if c.bone.name !in bones[p].children {
          bones := bones[p := bones[p].(children := bones[p].children + [c.bone.name])];
        }
      }
    }

    method UndoCreate(c: CreateBone)
      modifies this`bones
      ensures bones == CreateUndo(c, old(bones))
    {
      var d := bones;
      if HasParentIn(c.bone, d) {
        var p := c.bone.parent.value;
        if c.bone.name in d[p].children {
          d := d[p := d[p].(children := RemoveFirst(d[p].children, c.bone.name))];
        }
        assert d == DropChild(bones, p, c.bone.name);
      }
      if c.bone.name in d {
        d := d - {c.bone.name};
      }
      bones := d;
    }

    method ExecuteDelete(c: DeleteBone)
      modifies this
      ensures bones == DeleteExecute(c, old(bones))
    {
      if c.bone.None? || c.name !in bones {
        return;
      }
      var b := c.bone.value;
      DetachFromParent(c.name, b);
      ghost var d1 := bones;
      var i := 0;
      while i < |b.children|
        invariant 0 <= i <= |b.children|
        invariant bones == Adopt(d1, b.children[..i], b.parent)
      {
        AdoptChild(b.children[i], b.parent);
        assert b.children[..i + 1][..i] == b.children[..i];
        i := i + 1;
      }
      assert b.children[..i] == b.children;
      bones := bones - {c.name};
    }

    /** The first step of `DeleteBoneCommand.execute`: the bone leaves its
        parent's children. */
    method DetachFromParent(name: string, b: Bone)
      modifies this
      ensures bones == Unlink(old(bones), name, b)
    {
      if IsSet(b.parent) && b.parent.value in bones {
        var p := b.parent.value;
        if name in bones[p].children {
          bones := bones[p := bones[p].(children := RemoveFirst(bones[p].children, name))];
        }
      }
    }

    /** One turn of the loop of `DeleteBoneCommand.execute`. */
    method AdoptChild(k: string, np: Option<string>)
      modifies this
      ensures bones == AdoptOne(old(bones), k, np)
    {
      if k in bones {
        bones := bones[k := bones[k].(parent := np)];
        ghost var d1 := bones;
        assert d1 == SetParentOf(old(bones), k, np);
        if IsSet(np) && np.value in bones {
          var g := np.value;
          if k !in bones[g].children {
            bones := bones[g := bones[g].(children := bones[g].children + [k])];
          }
          assert bones == AddChild(d1, g, k);
        }
      }
    }

    /** One turn of the loop of `DeleteBoneCommand.undo`. */
    method ReclaimChild(k: string, name: string, gp: Option<string>)
      modifies this
      ensures bones == ReclaimOne(old(bones), k, name, gp)
    {
      if k in bones {
        bones := bones[k := bones[k].(parent := Some(name))];
        ghost var d1 := bones;
        assert d1 == SetParentOf(old(bones), k, Some(name));
        if IsSet(gp) && gp.value in bones {
          var g := gp.value;
          if k in bones[g].children {
            bones := bones[g := bones[g].(children := RemoveFirst(bones[g].children, k))];
          }
          assert bones == DropChild(d1, g, k);
        }
      }
    }

    /** The first step of `DeleteBoneCommand.undo`: the bone is back under
        its name and rejoins its parent's children. */
    method Restore(name: string, b: Bone)
      modifies this
      ensures bones == Relink(old(bones)[name := b], name, b)
    {
      bones := bones[name := b];
      if IsSet(b.parent) && b.parent.value in bones {
        var p := b.parent.value;
        if name !in bones[p].children {
          bones := bones[p := bones[p].(children := bones[p].children + [name])];
        }
      }
    }

    method UndoDelete(c: DeleteBone)
      modifies this
      ensures bones == DeleteUndo(c, old(bones))
    {
      if c.bone.None? {
        return;
      }
      var b := c.bone.value;
      Restore(c.name, b);
      ghost var d2 := bones;
      var i := 0;
      while i < |c.childUpdates|
        invariant 0 <= i <= |c.childUpdates|
        invariant bones == Reclaim(d2, c.childUpdates[..i], c.name, b.parent)
      {
        ReclaimChild(c.childUpdates[i], c.name, b.parent);
        assert c.childUpdates[..i + 1][..i] == c.childUpdates[..i];
        i := i + 1;
      }
      assert c.childUpdates[..i] == c.childUpdates;
    }
  }
}
