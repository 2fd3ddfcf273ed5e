/** The sprite edit commands of pyspine/sprite_commands.py (the copy under
    old_pyspine/ is identical).

    The create and delete commands of sprite rectangles and of sprite
    instances have the same shape: a copy of the record keyed by its name
    (or id) is put into, or taken out of, a shared dictionary. They are
    modelled once, generically over the record type, with the dictionary
    held by the class `Store`. The remaining commands hold a reference to
    one record and assign some of its fields; they are functions from the
    record before to the record after. Python's `copy.deepcopy` of the
    record is implicit: Dafny records are values, so a command's copy can
    never be changed by later edits of the caller's object. */
module SpriteCommands {
  import opened Types

  // ----- Create / delete of a keyed record -----------------------------------

  /** `CreateSpriteCommand` / `CreateSpriteInstanceCommand`. */
  datatype Create<V> = Create(key: string, item: V)

  /** `DeleteSpriteCommand` / `DeleteSpriteInstanceCommand`: the snapshot
      is `None` when the key was unknown at construction. */
  datatype Delete<V> = Delete(key: string, snapshot: Option<V>)

  function NewDelete<V>(d: map<string, V>, key: string): (c: Delete<V>)
    ensures c.key == key
    ensures c.snapshot.Some? <==> key in d
    ensures key in d ==> c.snapshot.value == d[key]
  {
    Delete(key, if key in d then Some(d[key]) else None)
  }

  function CreateExecute<V>(c: Create<V>, d: map<string, V>): map<string, V> {
    d[c.key := c.item]
  }

  function CreateUndo<V>(c: Create<V>, d: map<string, V>): map<string, V> {
    if c.key in d then d - {c.key} else d
  }

  function DeleteExecute<V>(c: Delete<V>, d: map<string, V>): map<string, V> {
    if c.key in d then d - {c.key} else d
  }

  function DeleteUndo<V>(c: Delete<V>, d: map<string, V>): map<string, V> {
    if c.snapshot.Some? then d[c.key := c.snapshot.value] else d
  }

  /** `execute` puts the command's own copy under the key and touches no
      other key; `undo` leaves the key absent, and is a no-op when it
      already is. */
  lemma CreateEffect<V>(c: Create<V>, d: map<string, V>)
    ensures c.key in CreateExecute(c, d) && CreateExecute(c, d)[c.key] == c.item
    ensures forall k :: k != c.key ==> (k in CreateExecute(c, d) <==> k in d)
    ensures forall k :: k in d && k != c.key ==> CreateExecute(c, d)[k] == d[k]
    ensures CreateUndo(c, d).Keys == d.Keys - {c.key}
    ensures forall k :: k in d && k != c.key ==> CreateUndo(c, d)[k] == d[k]
    ensures c.key !in d ==> CreateUndo(c, d) == d
  {
  }

  /** Creating under a new key and undoing gives back the dictionary; under
      a key already in use the previous record is lost. */
  lemma CreateRoundTrip<V>(c: Create<V>, d: map<string, V>)
    ensures c.key !in d ==> CreateUndo(c, CreateExecute(c, d)) == d
    ensures c.key in d ==> CreateUndo(c, CreateExecute(c, d)) == d - {c.key}
    ensures CreateExecute(c, CreateUndo(c, CreateExecute(c, d))) == CreateExecute(c, d)
  {
    assert CreateUndo(c, CreateExecute(c, d)) == d - {c.key};
  }

  /** Deleting a known key and undoing restores exactly the construction
      snapshot; for a key unknown at construction both directions leave the
      dictionary alone. */
  lemma DeleteRoundTrip<V>(d: map<string, V>, key: string)
    ensures key in d ==> DeleteUndo(NewDelete(d, key), DeleteExecute(NewDelete(d, key), d)) == d
    ensures key in d ==> key !in DeleteExecute(NewDelete(d, key), d)
    ensures key !in d ==> DeleteExecute(NewDelete(d, key), d) == d
    ensures forall e :: key !in d ==> DeleteUndo(NewDelete(d, key), e) == e
  {
    if key in d {
      var r := DeleteUndo(NewDelete(d, key), DeleteExecute(NewDelete(d, key), d));
      assert forall k :: k in r <==> k in d;
    }
  }

  /** The shared dictionary (`sprites_dict`, `instances_dict`). */
  class Store<V> {
    var entries: map<string, V>

    constructor (entries: map<string, V>)
      ensures this.entries == entries
    {
      this.entries := entries;
    }

    method ExecuteCreate(c: Create<V>)
      modifies this
      ensures entries == CreateExecute(c, old(entries))
    {
      entries := entries[c.key := c.item];
    }

    method UndoCreate(c: Create<V>)
      modifies this
      ensures entries == CreateUndo(c, old(entries))
    {
      if c.key in entries {
        entries := entries - {c.key};
      }
    }

    method ExecuteDelete(c: Delete<V>)
      modifies this
      ensures entries == DeleteExecute(c, old(entries))
    {
      if c.key in entries {
        entries := entries - {c.key};
      }
    }

    method UndoDelete(c: Delete<V>)
      modifies this
      ensures entries == DeleteUndo(c, old(entries))
    {
      if c.snapshot.Some? {
        entries := entries[c.key := c.snapshot.value];
      }
    }
  }

  // ----- Sprite rectangle field commands --------------------------------------

  /** `MoveSpriteCommand`: (x, y) before and after. */
  datatype MoveSprite = MoveSprite(oldX: int, oldY: int, newX: int, newY: int)

  function MoveSpriteExecute(c: MoveSprite, s: SpriteRect): SpriteRect { s.(x := c.newX, y := c.newY) }
  function MoveSpriteUndo(c: MoveSprite, s: SpriteRect): SpriteRect { s.(x := c.oldX, y := c.oldY) }

  lemma MoveSpriteRoundTrip(s: SpriteRect, newX: int, newY: int)
    ensures var c := MoveSprite(s.x, s.y, newX, newY);
      && MoveSpriteExecute(c, s).x == newX && MoveSpriteExecute(c, s).y == newY
      && MoveSpriteExecute(c, s).(x := s.x, y := s.y) == s
      && MoveSpriteUndo(c, MoveSpriteExecute(c, s)) == s
  {
  }

  /** `ResizeSpriteCommand`: the bounds (x, y, width, height) before and
      after. */
  datatype Bounds = Bounds(x: int, y: int, width: int, height: int)
  datatype ResizeSprite = ResizeSprite(before: Bounds, after: Bounds)

  function BoundsOf(s: SpriteRect): Bounds { Bounds(s.x, s.y, s.width, s.height) }

  function WithBounds(s: SpriteRect, b: Bounds): SpriteRect {
    s.(x := b.x, y := b.y, width := b.width, height := b.height)
  }

  function ResizeExecute(c: ResizeSprite, s: SpriteRect): SpriteRect { WithBounds(s, c.after) }
  function ResizeUndo(c: ResizeSprite, s: SpriteRect): SpriteRect { WithBounds(s, c.before) }

  /** Both directions set all four bounds and nothing else. */
  lemma ResizeSetsExactlyBounds(c: ResizeSprite, s: SpriteRect)
    ensures BoundsOf(ResizeExecute(c, s)) == c.after && BoundsOf(ResizeUndo(c, s)) == c.before
    ensures WithBounds(ResizeExecute(c, s), BoundsOf(s)) == s
    ensures WithBounds(ResizeUndo(c, s), BoundsOf(s)) == s
    ensures c.before == BoundsOf(s) ==> ResizeUndo(c, ResizeExecute(c, s)) == s
  {
  }

  /** `ChangeOriginCommand`. */
  datatype ChangeOrigin = ChangeOrigin(oldX: real, oldY: real, newX: real, newY: real)

  function OriginExecute(c: ChangeOrigin, s: SpriteRect): SpriteRect { s.(originX := c.newX, originY := c.newY) }
  function OriginUndo(c: ChangeOrigin, s: SpriteRect): SpriteRect { s.(originX := c.oldX, originY := c.oldY) }

  lemma ChangeOriginRoundTrip(s: SpriteRect, newX: real, newY: real)
    ensures var c := ChangeOrigin(s.originX, s.originY, newX, newY);
      && OriginExecute(c, s).originX == newX && OriginExecute(c, s).originY == newY
      && OriginExecute(c, s).(originX := s.originX, originY := s.originY) == s
      && OriginUndo(c, OriginExecute(c, s)) == s
  {
  }

  // ----- Sprite instance field commands ---------------------------------------

  /** `MoveSpriteInstanceCommand`: the offset before and after. */
  datatype MoveInstance = MoveInstance(oldX: real, oldY: real, newX: real, newY: real)

  function MoveInstanceExecute(c: MoveInstance, i: SpriteInstance): SpriteInstance { i.(offsetX := c.newX, offsetY := c.newY) }
  function MoveInstanceUndo(c: MoveInstance, i: SpriteInstance): SpriteInstance { i.(offsetX := c.oldX, offsetY := c.oldY) }

  /** `RotateSpriteInstanceCommand`. */
  datatype RotateInstance = RotateInstance(oldRotation: real, newRotation: real)

  function RotateInstanceExecute(c: RotateInstance, i: SpriteInstance): SpriteInstance { i.(offsetRotation := c.newRotation) }
  function RotateInstanceUndo(c: RotateInstance, i: SpriteInstance): SpriteInstance { i.(offsetRotation := c.oldRotation) }

  /** `ChangeScaleCommand`. */
  datatype ChangeScale = ChangeScale(oldScale: real, newScale: real)

  function ScaleExecute(c: ChangeScale, i: SpriteInstance): SpriteInstance { i.(scale := c.newScale) }
  function ScaleUndo(c: ChangeScale, i: SpriteInstance): SpriteInstance { i.(scale := c.oldScale) }

  /** Move, rotate and scale: undo after execute restores the old value when
      the command recorded the instance's value, and each touches only its
      own fields. */
  lemma InstanceFieldRoundTrips(i: SpriteInstance, x: real, y: real, rotation: real, scale: real)
    ensures var m := MoveInstance(i.offsetX, i.offsetY, x, y);
      MoveInstanceUndo(m, MoveInstanceExecute(m, i)) == i
      && MoveInstanceExecute(m, i).(offsetX := i.offsetX, offsetY := i.offsetY) == i
    ensures var r := RotateInstance(i.offsetRotation, rotation);
      RotateInstanceUndo(r, RotateInstanceExecute(r, i)) == i
      && RotateInstanceExecute(r, i).(offsetRotation := i.offsetRotation) == i
    ensures var s := ChangeScale(i.scale, scale);
      ScaleUndo(s, ScaleExecute(s, i)) == i
      && ScaleExecute(s, i).(scale := i.scale) == i
  {
  }

  /** `AttachSpriteInstanceCommand`: bone and attachment point travel
      together. */
  datatype AttachInstance = AttachInstance(
    oldBone: Option<string>, newBone: Option<string>,
    oldAttachment: AttachmentPoint, newAttachment: AttachmentPoint)

  function AttachExecute(c: AttachInstance, i: SpriteInstance): SpriteInstance {
    i.(boneName := c.newBone, boneAttachmentPoint := c.newAttachment)
  }

  function AttachUndo(c: AttachInstance, i: SpriteInstance): SpriteInstance {
    i.(boneName := c.oldBone, boneAttachmentPoint := c.oldAttachment)
  }

  /** Each direction sets the bone and the attachment point together and
      nothing else; undo after execute restores the recorded pair. */
  lemma AttachRoundTrip(i: SpriteInstance, newBone: Option<string>, newAttachment: AttachmentPoint)
    ensures var c := AttachInstance(i.boneName, newBone, i.boneAttachmentPoint, newAttachment);
      && AttachExecute(c, i).boneName == newBone && AttachExecute(c, i).boneAttachmentPoint == newAttachment
      && AttachExecute(c, i).(boneName := i.boneName, boneAttachmentPoint := i.boneAttachmentPoint) == i
      && AttachUndo(c, AttachExecute(c, i)) == i
  {
  }
}
