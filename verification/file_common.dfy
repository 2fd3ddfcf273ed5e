/** The project-file helpers of pyspine/file_common.py (its twin
    pyspine/old_pyspine/file_common.py is the same file): turning a
    dictionary of dataclass records into JSON-ready dictionaries, and
    turning a loaded bone record back into a `Bone`.

    A loaded record is a dictionary from field names to `Field`s, the
    values JSON can hold plus the two enumerations the loader and the
    serialiser put in. Reading and writing the JSON text itself is left
    out. */
module FileCommon {
  import opened Types

  datatype Field =
    | Null
    | Str(s: string)
    | Num(r: real)
    | Int(i: int)
    | Bool(b: bool)
    | Names(items: seq<string>)
    | LayerV(layer: BoneLayer)
    | PointV(point: AttachmentPoint)
    | Other

  type Record = map<string, Field>

  // ----- enum values ---------------------------------------------------------

  /** `BoneLayer.value`. */
  function LayerName(l: BoneLayer): string {
    match l
    case Behind => "behind"
    case Middle => "middle"
    case Front => "front"
  }

  /** `AttachmentPoint.value`. */
  function PointName(p: AttachmentPoint): string {
    match p
    case Start => "start"
    case End => "end"
  }

  /** `BoneLayer(s)`: `None` is the `ValueError` for an unknown value. */
  function ParseLayer(s: string): (r: Option<BoneLayer>)
    ensures r.Some? <==> s in {"behind", "middle", "front"}
    ensures r.Some? ==> LayerName(r.value) == s
  {
    if s == "behind" then Some(Behind)
    else if s == "middle" then Some(Middle)
    else if s == "front" then Some(Front)
    else None
  }

  /** `AttachmentPoint(s)`. */
  function ParsePoint(s: string): (r: Option<AttachmentPoint>)
    ensures r.Some? <==> s in {"start", "end"}
    ensures r.Some? ==> PointName(r.value) == s
  {
    if s == "start" then Some(Start)
    else if s == "end" then Some(End)
    else None
  }

  /** Every enum member is recovered from its value. */
  lemma EnumValuesRoundTrip(l: BoneLayer, p: AttachmentPoint)
    ensures ParseLayer(LayerName(l)) == Some(l)
    ensures ParsePoint(PointName(p)) == Some(p)
  {
  }

  /** A field is JSON-encodable without the custom encoder. */
  predicate Plain(f: Field) {
    !f.LayerV? && !f.PointV?
  }

  /** `EnumJSONEncoder.default`: an enum becomes its value; anything else is
      handed to the base encoder, which raises `TypeError` (`None`). */
  function EncodeDefault(f: Field): (r: Option<Field>)
    ensures r.Some? <==> !Plain(f)
    ensures f.LayerV? ==> r == Some(Str(LayerName(f.layer)))
    ensures f.PointV? ==> r == Some(Str(PointName(f.point)))
  {
    match f
    case LayerV(l) => Some(Str(LayerName(l)))
    case PointV(p) => Some(Str(PointName(p)))
    case _ => None
  }

  // ----- serialize_dataclass_dict --------------------------------------------

  /** What `enum_dict_factory` stores for one field. */
  function PlainValue(f: Field): (r: Field)
    ensures Plain(r)
    ensures Plain(f) ==> r == f
    ensures !Plain(f) ==> Some(r) == EncodeDefault(f)
  {
    match f
    case LayerV(l) => Str(LayerName(l))
    case PointV(p) => Str(PointName(p))
    case _ => f
  }

  /** The dictionary `enum_dict_factory` builds from `(key, value)` pairs:
      a later pair overrides an earlier one with the same key. */
  function ValueDict(fields: seq<(string, Field)>): (r: Record)
    ensures forall k :: k in r ==> Plain(r[k])
    ensures r.Keys == set i | 0 <= i < |fields| :: fields[i].0
  {
    if fields == [] then map[]
    else
      var last := fields[|fields| - 1];
      ValueDict(fields[..|fields| - 1])[last.0 := PlainValue(last.1)]
  }

  /** The value stored under a key is that of its last pair. */
  lemma {:induction false} ValueDictAt(fields: seq<(string, Field)>, i: int)
    requires 0 <= i < |fields|
    requires forall j :: i < j < |fields| ==> fields[j].0 != fields[i].0
    ensures fields[i].0 in ValueDict(fields) && ValueDict(fields)[fields[i].0] == PlainValue(fields[i].1)
  {
    if i < |fields| - 1 {
      var init := fields[..|fields| - 1];
      assert forall j :: i < j < |init| ==> init[j] == fields[j];
      ValueDictAt(init, i);
    }
  }

  /** `enum_dict_factory`: the loop over the record's fields. */
  method EnumDictFactory(fields: seq<(string, Field)>) returns (result: Record)
    ensures result == ValueDict(fields)
    ensures result.Keys == set i | 0 <= i < |fields| :: fields[i].0
  {
    result := map[];
    var i := 0;
    while i < |fields|
      invariant 0 <= i <= |fields|
      invariant result == ValueDict(fields[..i])
      invariant result.Keys == set j | 0 <= j < i :: fields[j].0
    {
      assert fields[..i + 1][..i] == fields[..i];
      result := result[fields[i].0 := PlainValue(fields[i].1)];
      i := i + 1;
    }
    assert fields[..i] == fields;
  }

  /** `asdict`'s field list for a bone, in declaration order. */
  function BoneFields(b: Bone): seq<(string, Field)> {
    [("name", Str(b.name)), ("x", Num(b.x)), ("y", Num(b.y)), ("length", Num(b.length)),
     ("angle", Num(b.angle)),
     ("parent", if b.parent.Some? then Str(b.parent.value) else Null),
     ("parent_attachment_point", PointV(b.parentAttachmentPoint)),
     ("children", Names(b.children)),
     ("layer", LayerV(b.layer)),
     ("layer_order", Int(b.layerOrder))]
  }

  /** `serialize_dataclass_dict`: every record becomes the dictionary of
      its fields with enums replaced by their values, under the same key. */
  method SerializeDataclassDict<T>(d: map<string, T>, fields: T -> seq<(string, Field)>)
    returns (r: map<string, Record>)
    ensures r.Keys == d.Keys
    ensures forall k :: k in d ==> r[k] == ValueDict(fields(d[k]))
    ensures forall k, f :: k in r && f in r[k] ==> Plain(r[k][f])
  {
    r := map[];
    var todo := d.Keys;
    while todo != {}
      invariant todo <= d.Keys && r.Keys == d.Keys - todo
      invariant forall k :: k in r ==> r[k] == ValueDict(fields(d[k]))
      decreases |todo|
    {
      var k :| k in todo;
      var rec := EnumDictFactory(fields(d[k]));
      r := r[k := rec];
      todo := todo - {k};
    }
  }

  // ----- deserialize_bone_data -----------------------------------------------

  /** The layer step: a string is parsed, an unknown one becomes MIDDLE; a
      missing layer becomes MIDDLE; a present non-string is left alone. */
  function LayerStep(d: Record): (r: Record)
    ensures r.Keys == d.Keys + {"layer"}
    ensures forall k :: k in d && k != "layer" ==> r[k] == d[k]
    ensures "layer" !in d ==> r["layer"] == LayerV(Middle)
    ensures "layer" in d && d["layer"].Str? ==>
      r["layer"] == LayerV(match ParseLayer(d["layer"].s) case Some(l) => l case None => Middle)
    ensures "layer" in d && !d["layer"].Str? ==> r["layer"] == d["layer"]
  {
    if "layer" in d && d["layer"].Str? then
      d["layer" := LayerV(match ParseLayer(d["layer"].s) case Some(l) => l case None => Middle)]
    else if "layer" !in d then d["layer" := LayerV(Middle)]
    else d
  }

  /** The attachment step: the same with END as the fallback. */
  function PointStep(d: Record): (r: Record)
    ensures r.Keys == d.Keys + {"parent_attachment_point"}
    ensures forall k :: k in d && k != "parent_attachment_point" ==> r[k] == d[k]
    ensures "parent_attachment_point" !in d ==> r["parent_attachment_point"] == PointV(End)
    ensures "parent_attachment_point" in d && d["parent_attachment_point"].Str? ==>
      r["parent_attachment_point"]
      == PointV(match ParsePoint(d["parent_attachment_point"].s) case Some(p) => p case None => End)
    ensures "parent_attachment_point" in d && !d["parent_attachment_point"].Str? ==>
      r["parent_attachment_point"] == d["parent_attachment_point"]
  {
    var k := "parent_attachment_point";
    if k in d && d[k].Str? then
      d[k := PointV(match ParsePoint(d[k].s) case Some(p) => p case None => End)]
    else if k !in d then d[k := PointV(End)]
    else d
  }

  /** The layer-order step: a missing order becomes 0. */
  function OrderStep(d: Record): (r: Record)
    ensures r.Keys == d.Keys + {"layer_order"}
    ensures forall k :: k in d ==> r[k] == d[k]
    ensures "layer_order" !in d ==> r["layer_order"] == Int(0)
  {
    if "layer_order" !in d then d["layer_order" := Int(0)] else d
  }

  const BoneKeys: set<string> :=
    {"name", "x", "y", "length", "angle", "parent", "parent_attachment_point",
     "children", "layer", "layer_order"}

  /** A JSON number read into a float field. */
  function AsReal(f: Field): Option<real> {
    match f
    case Num(r) => Some(r)
    case Int(i) => Some(i as real)
    case _ => None
  }

  /** An optional float field with its dataclass default. */
  function RealOr(d: Record, k: string, dflt: real): Option<real> {
    if k in d then AsReal(d[k]) else Some(dflt)
  }

  /** `Bone(**d)` followed by `__post_init__`. `None` is the `TypeError` of
      an unknown or missing required keyword. A value of the wrong kind
      gives `None` as well: the dataclass stores it unchecked, but the
      record here has typed fields. A missing or null `children` becomes
      `[]`. */
  function MakeBone(d: Record): (r: Option<Bone>)
    ensures r.Some? ==> d.Keys <= BoneKeys && {"name", "x", "y", "length"} <= d.Keys
    ensures r.Some? ==> "angle" !in d ==> r.value.angle == 0.0
    ensures r.Some? ==> ("children" !in d || d["children"] == Null) ==> r.value.children == []
    ensures r.Some? ==> "parent" !in d ==> r.value.parent == None
    ensures r.Some? && "layer" in d ==> d["layer"] == LayerV(r.value.layer)
    ensures r.Some? && "layer" !in d ==> r.value.layer == Middle
    ensures r.Some? && "parent_attachment_point" in d ==> d["parent_attachment_point"] == PointV(r.value.parentAttachmentPoint)
    ensures r.Some? && "layer_order" in d ==> d["layer_order"] == Int(r.value.layerOrder)
  {
    if !(d.Keys <= BoneKeys && {"name", "x", "y", "length"} <= d.Keys) then None
    else if !d["name"].Str? then None
    else
      var x := AsReal(d["x"]);
      var y := AsReal(d["y"]);
      var len := AsReal(d["length"]);
      var angle := RealOr(d, "angle", 0.0);
      var parent: Option<Option<string>> :=
        if "parent" !in d || d["parent"] == Null then Some(None)
        else if d["parent"].Str? then Some(Some(d["parent"].s)) else None;
      var point: Option<AttachmentPoint> :=
        if "parent_attachment_point" !in d then Some(End)
        else if d["parent_attachment_point"].PointV? then Some(d["parent_attachment_point"].point) else None;
      var children: Option<seq<string>> :=
        if "children" !in d || d["children"] == Null then Some([])
        else if d["children"].Names? then Some(d["children"].items) else None;
      var layer: Option<BoneLayer> :=
        if "layer" !in d then Some(Middle)
        else if d["layer"].LayerV? then Some(d["layer"].layer) else None;
      var order: Option<int> :=
        if "layer_order" !in d then Some(0)
        else if d["layer_order"].Int? then Some(d["layer_order"].i) else None;
      if x.None? || y.None? || len.None? || angle.None? || parent.None? || point.None?
         || children.None? || layer.None? || order.None? then None
      else
        Some(Bone(d["name"].s, x.value, y.value, len.value, angle.value, parent.value,
                  point.value, children.value, layer.value, order.value))
  }

  /** `deserialize_bone_data`. The caller's dictionary is rewritten in
      place, so the rewritten record is returned beside the bone. */
  method DeserializeBoneData(boneData: Record) returns (rewritten: Record, bone: Option<Bone>)
    ensures rewritten == OrderStep(PointStep(LayerStep(boneData)))
    ensures bone == MakeBone(rewritten)
    ensures rewritten.Keys == boneData.Keys + {"layer", "parent_attachment_point", "layer_order"}
    ensures bone.Some? && ("layer" !in boneData
                           || (boneData["layer"].Str? && ParseLayer(boneData["layer"].s).None?))
            ==> bone.value.layer == Middle
    ensures bone.Some? && ("parent_attachment_point" !in boneData
                           || (boneData["parent_attachment_point"].Str?
                               && ParsePoint(boneData["parent_attachment_point"].s).None?))
            ==> bone.value.parentAttachmentPoint == End
    ensures bone.Some? && "layer_order" !in boneData ==> bone.value.layerOrder == 0
  {
    rewritten := LayerStep(boneData);
    rewritten := PointStep(rewritten);
    rewritten := OrderStep(rewritten);
    bone := MakeBone(rewritten);
  }

  /** `d` holds the plain values of every field of `b`, under its keys. */
  ghost predicate HoldsBone(d: Record, b: Bone) {
    && d.Keys == BoneKeys
    && d["name"] == Str(b.name) && d["x"] == Num(b.x) && d["y"] == Num(b.y)
    && d["length"] == Num(b.length) && d["angle"] == Num(b.angle)
    && d["parent"] == (if b.parent.Some? then Str(b.parent.value) else Null)
    && d["parent_attachment_point"] == Str(PointName(b.parentAttachmentPoint))
    && d["children"] == Names(b.children)
    && d["layer"] == Str(LayerName(b.layer))
    && d["layer_order"] == Int(b.layerOrder)
  }

  /** The serialised dictionary of a bone has exactly the bone's keys. */
  lemma SerializedBoneKeys(b: Bone)
    ensures ValueDict(BoneFields(b)).Keys == BoneKeys
  {
    var fs := BoneFields(b);
    assert fs[0].0 == "name" && fs[1].0 == "x" && fs[2].0 == "y" && fs[3].0 == "length";
    assert fs[4].0 == "angle" && fs[5].0 == "parent" && fs[6].0 == "parent_attachment_point";
    assert fs[7].0 == "children" && fs[8].0 == "layer" && fs[9].0 == "layer_order";
  }

  /** The serialised dictionary of a bone: its first five fields. */
  lemma SerializedScalars(b: Bone)
    ensures var d := ValueDict(BoneFields(b));
      && "name" in d && d["name"] == Str(b.name)
      && "x" in d && d["x"] == Num(b.x)
      && "y" in d && d["y"] == Num(b.y)
      && "length" in d && d["length"] == Num(b.length)
      && "angle" in d && d["angle"] == Num(b.angle)
  {
    var fs := BoneFields(b);
    ValueDictAt(fs, 0); ValueDictAt(fs, 1); ValueDictAt(fs, 2); ValueDictAt(fs, 3);
    ValueDictAt(fs, 4);
  }

  /** The serialised dictionary of a bone: its last five fields. */
  lemma SerializedLinks(b: Bone)
    ensures var d := ValueDict(BoneFields(b));
      && "parent" in d && d["parent"] == (if b.parent.Some? then Str(b.parent.value) else Null)
      && "parent_attachment_point" in d
      && d["parent_attachment_point"] == Str(PointName(b.parentAttachmentPoint))
      && "children" in d && d["children"] == Names(b.children)
      && "layer" in d && d["layer"] == Str(LayerName(b.layer))
      && "layer_order" in d && d["layer_order"] == Int(b.layerOrder)
  {
    var fs := BoneFields(b);
    ValueDictAt(fs, 5); ValueDictAt(fs, 6); ValueDictAt(fs, 7);
    ValueDictAt(fs, 8); ValueDictAt(fs, 9);
  }

  /** The serialised dictionary of a bone, key by key. */
  lemma SerializedBone(b: Bone)
    ensures HoldsBone(ValueDict(BoneFields(b)), b)
  {
    SerializedBoneKeys(b);
    SerializedScalars(b);
    SerializedLinks(b);
  }

  /** `r` holds every field of `b` in the form the constructor takes. */
  ghost predicate ReadyBone(r: Record, b: Bone) {
    && r.Keys == BoneKeys
    && r["layer"] == LayerV(b.layer)
    && r["parent_attachment_point"] == PointV(b.parentAttachmentPoint)
    && r["layer_order"] == Int(b.layerOrder)
    && r["name"] == Str(b.name) && r["x"] == Num(b.x) && r["y"] == Num(b.y)
    && r["length"] == Num(b.length) && r["angle"] == Num(b.angle)
    && r["parent"] == (if b.parent.Some? then Str(b.parent.value) else Null)
    && r["children"] == Names(b.children)
  }

  /** The three rewriting steps turn the plain values into that form. */
  lemma StepsMakeReady(d: Record, b: Bone)
    requires HoldsBone(d, b)
    ensures ReadyBone(OrderStep(PointStep(LayerStep(d))), b)
  {
    EnumValuesRoundTrip(b.layer, b.parentAttachmentPoint);
  }

  /** The constructor rebuilds the bone from that form. */
  lemma MakeReadyBone(r: Record, b: Bone)
    requires ReadyBone(r, b)
    ensures MakeBone(r) == Some(b)
  {
  }

  /** Reading back a dictionary holding a bone's plain values gives the bone. */
  lemma ReadBack(d: Record, b: Bone)
    requires HoldsBone(d, b)
    ensures MakeBone(OrderStep(PointStep(LayerStep(d)))) == Some(b)
  {
    StepsMakeReady(d, b);
    MakeReadyBone(OrderStep(PointStep(LayerStep(d))), b);
  }

  /** A bone that was serialised and read back, once the JSON text
      round trip has kept every plain value, is the same bone. */
  lemma BoneRoundTrip(b: Bone)
    ensures MakeBone(OrderStep(PointStep(LayerStep(ValueDict(BoneFields(b)))))) == Some(b)
  {
    SerializedBone(b);
    ReadBack(ValueDict(BoneFields(b)), b);
  }
}
