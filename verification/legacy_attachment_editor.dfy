/** The earlier sprite attachment editor, pyspine/old_pyspine/attachment_editor.py,
    built on `UniversalEditor`: its instance edits are "modify" and "delete"
    records applied to `data_objects["sprite_instances"]`, and its loader
    reads bones and instances without the lenient fallbacks of
    pyspine/file_common.py.

    Its `SpriteInstance` has one field more than the later one,
    `auto_adjust_bone`. The bone re-adjustment that field switches on is
    geometry on the bone's angle and length and is not part of this model. */
module LegacyAttachmentEditor {
  import opened Types
  import Names
  import FC = FileCommon
  import UE = UniversalEditor
  import AE = AttachmentEditor

  /** The editor's `SpriteInstance`: the common fields and the
      `auto_adjust_bone` flag, which is on unless given. */
  datatype LegacyInstance = LegacyInstance(base: SpriteInstance, autoAdjustBone: bool := true)

  type Store = UE.Store<LegacyInstance>

  const InstancesType := "sprite_instances"

  /** The instance object stored under `id`, if there is one. (A record has
      no `name` attribute.) */
  function Lookup(d: Store, id: string): Option<LegacyInstance> {
    if InstancesType in d && id in d[InstancesType] && d[InstancesType][id].Obj?
       && d[InstancesType][id].name.None?
    then Some(d[InstancesType][id].payload)
    else None
  }

  /** The common fields of every stored instance. */
  function Bases(d: Store): map<string, SpriteInstance> {
    if InstancesType in d then
      map id | id in d[InstancesType] && Lookup(d, id).Some? :: Lookup(d, id).value.base
    else map[]
  }

  /** `get_next_sprite_instance_id`: the same counting rule as the later
      editor's `create_sprite_instance`, with the same collision after a
      deletion. */
  function NextSpriteInstanceId(d: Store, spriteName: string): (id: string)
    ensures Names.Suffix(id, spriteName + "_") == Some(AE.CountOf(Bases(d), spriteName) + 1)
  {
    AE.InstanceId(Bases(d), spriteName)
  }

  /** `copy_sprite_instance(instance, rotation)`: every field copied, with
      the rotation replaced when one is given (0.0 included). */
  function CopySpriteInstance(i: LegacyInstance, rotation: Option<real>): (r: LegacyInstance)
    ensures r.autoAdjustBone == i.autoAdjustBone
    ensures r.base.offsetRotation == (if rotation.Some? then rotation.value else i.base.offsetRotation)
    ensures r.base.(offsetRotation := i.base.offsetRotation) == i.base
    ensures rotation.None? ==> r == i
  {
    var rot := if rotation.Some? then rotation.value else i.base.offsetRotation;
    LegacyInstance(i.base.(offsetRotation := rot), i.autoAdjustBone)
  }

  /** The "modify" record the editor pushes for an instance it changed. */
  function ModifyRecord(id: string, before: LegacyInstance, after: LegacyInstance): UE.Record<LegacyInstance> {
    UE.Edit(UE.Modify, InstancesType, id, UE.Obj(None, before), UE.Obj(None, after))
  }

  /** What applying a record for `id` leaves under `id`. */
  function StoredAfter(d: Store, r: UE.Record<LegacyInstance>, id: string): Option<LegacyInstance>
    requires UE.RenameType !in d
  {
    var e := UE.ExecuteData(d, r);
    if e.Some? then Lookup(e.value, id) else None
  }

  function Flip(p: AttachmentPoint): AttachmentPoint {
    if p == End then Start else End
  }

  /** `toggle_sprite_attachment_point`: nothing for no selection or an
      instance without a bone; otherwise a record whose old data is the
      instance and whose new data has START and END swapped. */
  function ToggleAttachmentRecord(d: Store, selected: Option<string>): (r: Option<UE.Record<LegacyInstance>>)
    ensures r.Some? <==> IsSet(selected) && Lookup(d, selected.value).Some?
                         && IsSet(Lookup(d, selected.value).value.base.boneName)
    ensures r.Some? ==> UE.Describes(d, r.value)
    ensures r.Some? && UE.RenameType !in d ==>
      var i := Lookup(d, selected.value).value;
      StoredAfter(d, r.value, selected.value)
        == Some(i.(base := i.base.(boneAttachmentPoint := Flip(i.base.boneAttachmentPoint))))
  {
    if !IsSet(selected) || Lookup(d, selected.value).None? then None
    else
      var i := Lookup(d, selected.value).value;
      if !IsSet(i.base.boneName) then None
      else
        var after := i.(base := i.base.(boneAttachmentPoint := Flip(i.base.boneAttachmentPoint)));
        Some(ModifyRecord(selected.value, CopySpriteInstance(i, None), after))
  }

  /** `toggle_auto_adjust_bone`: a record negating the flag of the selected
      instance. */
  function ToggleAutoAdjustRecord(d: Store, selected: Option<string>): (r: Option<UE.Record<LegacyInstance>>)
    ensures r.Some? <==> IsSet(selected) && Lookup(d, selected.value).Some?
    ensures r.Some? ==> UE.Describes(d, r.value)
    ensures r.Some? && UE.RenameType !in d ==>
      var i := Lookup(d, selected.value).value;
      StoredAfter(d, r.value, selected.value) == Some(i.(autoAdjustBone := !i.autoAdjustBone))
  {
    if !IsSet(selected) || Lookup(d, selected.value).None? then None
    else
      var i := Lookup(d, selected.value).value;
      Some(ModifyRecord(selected.value, CopySpriteInstance(i, None), i.(autoAdjustBone := !i.autoAdjustBone)))
  }

  /** `rotate_selected_sprite`: the rotation becomes (old + degrees) mod
      360; the old data is a copy carrying the old rotation. */
  function RotateRecord(d: Store, selected: Option<string>, degrees: real): (r: Option<UE.Record<LegacyInstance>>)
    ensures r.Some? <==> IsSet(selected) && Lookup(d, selected.value).Some?
    ensures r.Some? ==> UE.Describes(d, r.value)
    ensures r.Some? && UE.RenameType !in d ==>
      var i := Lookup(d, selected.value).value;
      var rot := PyMod(i.base.offsetRotation + degrees, 360.0);
      && 0.0 <= rot < 360.0
      && StoredAfter(d, r.value, selected.value) == Some(i.(base := i.base.(offsetRotation := rot)))
  {
    if !IsSet(selected) || Lookup(d, selected.value).None? then None
    else
      var i := Lookup(d, selected.value).value;
      var before := CopySpriteInstance(i, Some(i.base.offsetRotation));
      var rot := PyMod(i.base.offsetRotation + degrees, 360.0);
      Some(ModifyRecord(selected.value, before, i.(base := i.base.(offsetRotation := rot))))
  }

  /** `delete_selected`: a "delete" record holding the stored object. */
  function DeleteRecord(d: Store, selected: Option<string>): (r: Option<UE.Record<LegacyInstance>>)
    ensures r.Some? <==> IsSet(selected) && InstancesType in d && selected.value in d[InstancesType]
    ensures r.Some? ==> UE.Describes(d, r.value)
    ensures r.Some? && UE.RenameType !in d ==>
      UE.ExecuteData(d, r.value) == Some(d[InstancesType := d[InstancesType] - {selected.value}])
  {
    if IsSet(selected) && InstancesType in d && selected.value in d[InstancesType] then
      Some(UE.Edit(UE.Delete, InstancesType, selected.value, d[InstancesType][selected.value], UE.NoneValue))
    else None
  }

  /** Toggling the attachment point twice gives back the store it started
      from. */
  lemma ToggleAttachmentTwice(d: Store, id: string)
    requires UE.RenameType !in d
    requires id != "" && Lookup(d, id).Some? && IsSet(Lookup(d, id).value.base.boneName)
    ensures var r1 := ToggleAttachmentRecord(d, Some(id)).value;
      var d1 := UE.ExecuteData(d, r1).value;
      && ToggleAttachmentRecord(d1, Some(id)).Some?
      && UE.ExecuteData(d1, ToggleAttachmentRecord(d1, Some(id)).value) == Some(d)
  {
    var r1 := ToggleAttachmentRecord(d, Some(id)).value;
    var d1 := UE.ExecuteData(d, r1).value;
    var i := Lookup(d, id).value;
    assert d1 == d[InstancesType := d[InstancesType][id := r1.newData]];
    assert Lookup(d1, id) == Some(r1.newData.payload);
    var r2 := ToggleAttachmentRecord(d1, Some(id)).value;
    assert r2.newData == UE.Obj(None, i);
    assert d[InstancesType][id] == UE.Obj(None, i);
    assert d1[InstancesType][id := UE.Obj(None, i)] == d[InstancesType];
    assert UE.ExecuteData(d1, r2) == Some(d1[InstancesType := d1[InstancesType][id := UE.Obj(None, i)]]);
    assert d1[InstancesType := d[InstancesType]] == d;
  }

  /** Toggling auto-adjustment twice gives back the store it started from. */
  lemma ToggleAutoAdjustTwice(d: Store, id: string)
    requires UE.RenameType !in d
    requires id != "" && Lookup(d, id).Some?
    ensures var r1 := ToggleAutoAdjustRecord(d, Some(id)).value;
      var d1 := UE.ExecuteData(d, r1).value;
      && ToggleAutoAdjustRecord(d1, Some(id)).Some?
      && UE.ExecuteData(d1, ToggleAutoAdjustRecord(d1, Some(id)).value) == Some(d)
  {
    var r1 := ToggleAutoAdjustRecord(d, Some(id)).value;
    var d1 := UE.ExecuteData(d, r1).value;
    var i := Lookup(d, id).value;
    assert d1 == d[InstancesType := d[InstancesType][id := r1.newData]];
    assert Lookup(d1, id) == Some(r1.newData.payload);
    var r2 := ToggleAutoAdjustRecord(d1, Some(id)).value;
    assert r2.newData == UE.Obj(None, i);
    assert d[InstancesType][id] == UE.Obj(None, i);
    assert d1[InstancesType][id := UE.Obj(None, i)] == d[InstancesType];
    assert UE.ExecuteData(d1, r2) == Some(d1[InstancesType := d1[InstancesType][id := UE.Obj(None, i)]]);
    assert d1[InstancesType := d[InstancesType]] == d;
  }

  // ----- deserialize_data_objects --------------------------------------------

  /** `BoneLayer(bone_data.get('layer', 'middle'))`, with no fallback: an
      unknown value is the `ValueError` (`None`) that aborts the load. */
  function StrictLayerStep(d: FC.Record): (r: Option<FC.Record>)
    ensures r.Some? <==> "layer" !in d || d["layer"].LayerV? || (d["layer"].Str? && FC.ParseLayer(d["layer"].s).Some?)
    ensures r.Some? ==> r.value.Keys == d.Keys + {"layer"} && r.value["layer"].LayerV?
    ensures r.Some? ==> forall k :: k in d && k != "layer" ==> r.value[k] == d[k]
  {
    if "layer" !in d then Some(d["layer" := FC.LayerV(Middle)])
    else if d["layer"].LayerV? then Some(d)
    else if d["layer"].Str? && FC.ParseLayer(d["layer"].s).Some? then
      Some(d["layer" := FC.LayerV(FC.ParseLayer(d["layer"].s).value)])
    else None
  }

  /** `AttachmentPoint(data.get(key, dflt))`, with no fallback. */
  function StrictPointStep(d: FC.Record, key: string, dflt: AttachmentPoint): (r: Option<FC.Record>)
    ensures r.Some? <==> key !in d || d[key].PointV? || (d[key].Str? && FC.ParsePoint(d[key].s).Some?)
    ensures r.Some? ==> r.value.Keys == d.Keys + {key} && r.value[key].PointV?
    ensures r.Some? ==> forall k :: k in d && k != key ==> r.value[k] == d[k]
    ensures r.Some? && key !in d ==> r.value[key] == FC.PointV(dflt)
  {
    if key !in d then Some(d[key := FC.PointV(dflt)])
    else if d[key].PointV? then Some(d)
    else if d[key].Str? && FC.ParsePoint(d[key].s).Some? then
      Some(d[key := FC.PointV(FC.ParsePoint(d[key].s).value)])
    else None
  }

  /** The strict steps agree with the lenient ones of
      pyspine/file_common.py wherever they succeed; they fail exactly on
      the unknown strings (and other values) that the lenient ones replace
      by MIDDLE and END or leave for the constructor to reject. */
  lemma StrictAgreesWithLenient(d: FC.Record)
    ensures StrictLayerStep(d).Some? ==> StrictLayerStep(d).value == FC.LayerStep(d)
    ensures StrictPointStep(d, "parent_attachment_point", End).Some? ==>
      StrictPointStep(d, "parent_attachment_point", End).value == FC.PointStep(d)
  {
    if StrictLayerStep(d).Some? && "layer" in d && d["layer"].LayerV? {
      assert d["layer" := d["layer"]] == d;
    }
  }

  /** One loaded bone: layer, then parent attachment point, then the
      dataclass constructor. */
  function LoadBone(d: FC.Record): (r: Option<Bone>)
    ensures r.Some? ==> StrictLayerStep(d).Some?
    ensures r.Some? ==> "layer" !in d ==> r.value.layer == Middle
    ensures r.Some? ==> "parent_attachment_point" !in d ==> r.value.parentAttachmentPoint == End
    ensures r.Some? ==> "layer" in d && d["layer"].Str? ==> FC.ParseLayer(d["layer"].s) == Some(r.value.layer)
  {
    var l := StrictLayerStep(d);
    if l.None? then None
    else
      var p := StrictPointStep(l.value, "parent_attachment_point", End);
      if p.None? then None else FC.MakeBone(p.value)
  }

  const InstanceKeys: set<string> :=
    {"id", "sprite_name", "bone_name", "offset_x", "offset_y", "offset_rotation", "scale",
     "bone_attachment_point", "auto_adjust_bone"}

  /** A loaded instance record: the attachment point read strictly with
      START as the default, and `auto_adjust_bone` off when missing, so an
      old file loads without auto-adjustment although a new instance has
      it on. */
  function InstanceStep(d: FC.Record): (r: Option<FC.Record>)
    ensures r.Some? <==> StrictPointStep(d, "bone_attachment_point", Start).Some?
    ensures r.Some? ==> r.value.Keys == d.Keys + {"bone_attachment_point", "auto_adjust_bone"}
    ensures r.Some? ==> "auto_adjust_bone" !in d ==> r.value["auto_adjust_bone"] == FC.Bool(false)
    ensures r.Some? ==> "auto_adjust_bone" in d ==> r.value["auto_adjust_bone"] == d["auto_adjust_bone"]
    ensures r.Some? ==> "bone_attachment_point" !in d ==> r.value["bone_attachment_point"] == FC.PointV(Start)
  {
    var p := StrictPointStep(d, "bone_attachment_point", Start);
    if p.None? then None
    else if "auto_adjust_bone" !in p.value then Some(p.value["auto_adjust_bone" := FC.Bool(false)])
    else Some(p.value)
  }

  /** `SpriteInstance(**d)`: `None` is the `TypeError` of an unknown or
      missing keyword. A value of the wrong kind gives `None` as well: the
      dataclass stores it unchecked, but the record here has typed
      fields. */
  function MakeInstance(d: FC.Record): (r: Option<LegacyInstance>)
    ensures r.Some? ==> d.Keys <= InstanceKeys && "id" in d && "sprite_name" in d
    ensures r.Some? ==> d["id"] == FC.Str(r.value.base.id) && d["sprite_name"] == FC.Str(r.value.base.spriteName)
    ensures r.Some? && "auto_adjust_bone" in d ==> d["auto_adjust_bone"] == FC.Bool(r.value.autoAdjustBone)
    ensures r.Some? && "auto_adjust_bone" !in d ==> r.value.autoAdjustBone
    ensures r.Some? && "bone_attachment_point" in d && d["bone_attachment_point"] != FC.Null ==>
      d["bone_attachment_point"] == FC.PointV(r.value.base.boneAttachmentPoint)
    ensures r.Some? && "scale" !in d ==> r.value.base.scale == 1.0
  {
    if !(d.Keys <= InstanceKeys && "id" in d && "sprite_name" in d) then None
    else if !d["id"].Str? || !d["sprite_name"].Str? then None
    else
      var bone: Option<Option<string>> :=
        if "bone_name" !in d || d["bone_name"] == FC.Null then Some(None)
        else if d["bone_name"].Str? then Some(Some(d["bone_name"].s)) else None;
      var ox := FC.RealOr(d, "offset_x", 0.0);
      var oy := FC.RealOr(d, "offset_y", 0.0);
      var rot := FC.RealOr(d, "offset_rotation", 0.0);
      var scale := FC.RealOr(d, "scale", 1.0);
      var point: Option<AttachmentPoint> :=
        if "bone_attachment_point" !in d || d["bone_attachment_point"] == FC.Null then Some(Start)
        else if d["bone_attachment_point"].PointV? then Some(d["bone_attachment_point"].point) else None;
      var auto: Option<bool> :=
        if "auto_adjust_bone" !in d then Some(true)
        else if d["auto_adjust_bone"].Bool? then Some(d["auto_adjust_bone"].b) else None;
      if bone.None? || ox.None? || oy.None? || rot.None? || scale.None? || point.None? || auto.None? then None
      else
        Some(LegacyInstance(
          SpriteInstance(d["id"].s, d["sprite_name"].s, bone.value, ox.value, oy.value, rot.value,
                         scale.value, point.value),
          auto.value))
  }

  /** One loaded instance. A record without `auto_adjust_bone` loads with
      the flag off. */
  function LoadInstance(d: FC.Record): (r: Option<LegacyInstance>)
    ensures r.Some? ==> "auto_adjust_bone" !in d ==> !r.value.autoAdjustBone
    ensures r.Some? ==> "bone_attachment_point" !in d ==> r.value.base.boneAttachmentPoint == Start
    ensures r.Some? ==> "bone_attachment_point" in d && d["bone_attachment_point"].Str? ==>
      FC.ParsePoint(d["bone_attachment_point"].s) == Some(r.value.base.boneAttachmentPoint)
  {
    var s := InstanceStep(d);
    if s.None? then None else MakeInstance(s.value)
  }
}
