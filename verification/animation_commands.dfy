/** The keyframe commands of pyspine/animation_commands.py.

    Each command edits one track's keyframe list; `execute` and `undo`
    become functions from the list before to the list after. Commands that
    hold a reference to one keyframe object (`ModifyKeyframeCommand`,
    `SetInterpolationCommand`) hold its index in the list instead.
    `ClearAnimationCommand` works on the whole animation: the keyframe
    lists of every bone and the current time. */
module AnimationCommands {
  import opened Types
  import opened KeyframeOrder
  import opened BoneTrack

  datatype KeyframeCommand =
    | AddKeyframe(keyframe: BoneKeyframe)
    | DeleteKeyframe(index: int, deleted: Option<BoneKeyframe>)
    | ModifyKeyframe(
        target: nat, oldTransform: BoneTransform, newTransform: BoneTransform,
        oldTime: real, newTime: real,
        oldInterpolation: InterpolationType, newInterpolation: InterpolationType)
    | MoveKeyframe(index: int, fromTime: real, toTime: real)
    | SetInterpolation(target: nat, before: InterpolationType, after: InterpolationType)
    | BoneManipulation(boneName: string, oldTransform: BoneTransform, newTransform: BoneTransform, at: real)

  /** `AddKeyframeCommand.undo` looks for a keyframe of the same bone within
      the tolerance of the added keyframe's time. */
  function SameSlot(kf: BoneKeyframe): BoneKeyframe -> bool {
    (k: BoneKeyframe) => Abs(k.time - kf.time) < TimeTolerance && k.boneName == kf.boneName
  }

  /** `BoneManipulationCommand.undo` treats an all-zero old transform as
      "the keyframe was created by execute". */
  predicate IsZeroTransform(t: BoneTransform) {
    t.x == 0.0 && t.y == 0.0 && t.rotation == 0.0 && t.scale == 0.0
  }

  /** `DeleteKeyframeCommand(track, index)`: snapshots the keyframe when the
      index is valid. */
  function NewDeleteKeyframe(kfs: seq<BoneKeyframe>, index: int): (c: KeyframeCommand)
    ensures c.DeleteKeyframe? && c.index == index
    ensures c.deleted.Some? <==> 0 <= index < |kfs|
    ensures c.deleted.Some? ==> c.deleted.value == kfs[index]
  {
    DeleteKeyframe(index, if 0 <= index < |kfs| then Some(kfs[index]) else None)
  }

  /** `ModifyKeyframeCommand(keyframe, old_transform, new_transform, ...)`:
      an omitted time or interpolation defaults to the keyframe's current
      one. */
  function NewModifyKeyframe(
    kfs: seq<BoneKeyframe>, target: nat, oldTransform: BoneTransform, newTransform: BoneTransform,
    oldTime: Option<real>, newTime: Option<real>,
    oldInterpolation: Option<InterpolationType>, newInterpolation: Option<InterpolationType>): (c: KeyframeCommand)
    requires target < |kfs|
    ensures c.ModifyKeyframe? && c.target == target
    ensures c.oldTime == (if oldTime.Some? then oldTime.value else kfs[target].time)
    ensures c.newTime == (if newTime.Some? then newTime.value else kfs[target].time)
    ensures c.oldInterpolation == (if oldInterpolation.Some? then oldInterpolation.value else kfs[target].interpolation)
    ensures c.newInterpolation == (if newInterpolation.Some? then newInterpolation.value else kfs[target].interpolation)
  {
    var kf := kfs[target];
    ModifyKeyframe(target, oldTransform, newTransform,
      if oldTime.Some? then oldTime.value else kf.time,
      if newTime.Some? then newTime.value else kf.time,
      if oldInterpolation.Some? then oldInterpolation.value else kf.interpolation,
      if newInterpolation.Some? then newInterpolation.value else kf.interpolation)
  }

  function SetFields(kfs: seq<BoneKeyframe>, i: nat, tr: BoneTransform, time: real, interp: InterpolationType): seq<BoneKeyframe> {
    if i < |kfs| then kfs[i := kfs[i].(transform := tr, time := time, interpolation := interp)] else kfs
  }

  function Execute(c: KeyframeCommand, kfs: seq<BoneKeyframe>): seq<BoneKeyframe> {
    match c
    case AddKeyframe(kf) => InsertBy(kfs, kf, KfTime)
    case DeleteKeyframe(i, _) => if 0 <= i < |kfs| then RemoveAt(kfs, i) else kfs
    case ModifyKeyframe(i, _, tr, _, time, _, interp) => SetFields(kfs, i, tr, time, interp)
    case MoveKeyframe(i, _, toTime) =>
      if 0 <= i < |kfs| then SortBy(kfs[i := kfs[i].(time := toTime)], KfTime) else kfs
    case SetInterpolation(i, _, after) =>
      if i < |kfs| then kfs[i := kfs[i].(interpolation := after)] else kfs
    case BoneManipulation(bone, _, tr, at) => SetOrAdd(kfs, at, bone, tr)
  }

  function Undo(c: KeyframeCommand, kfs: seq<BoneKeyframe>): seq<BoneKeyframe> {
    match c
    case AddKeyframe(kf) =>
      (match FirstMatch(kfs, SameSlot(kf), 0)
       case Some(i) => RemoveAt(kfs, i)
       case None => kfs)
    case DeleteKeyframe(_, deleted) => if deleted.Some? then InsertBy(kfs, deleted.value, KfTime) else kfs
    case ModifyKeyframe(i, tr, _, time, _, interp, _) => SetFields(kfs, i, tr, time, interp)
    case MoveKeyframe(_, fromTime, toTime) =>
      (match FirstMatch(kfs, Within(KfTime, toTime, TimeTolerance), 0)
       case Some(j) => SortBy(kfs[j := kfs[j].(time := fromTime)], KfTime)
       case None => SortBy(kfs, KfTime))
    case SetInterpolation(i, before, _) =>
      if i < |kfs| then kfs[i := kfs[i].(interpolation := before)] else kfs
    case BoneManipulation(_, prev, _, at) =>
      match FirstMatch(kfs, Within(KfTime, at, TimeTolerance), 0)
      case Some(i) => if IsZeroTransform(prev) then RemoveAt(kfs, i) else kfs[i := kfs[i].(transform := prev)]
      case None => kfs
  }

  // ----- AddKeyframeCommand ------------------------------------------------

  /** Undo removes exactly one keyframe when some keyframe of the bone lies
      within the tolerance, the first such one, and nothing otherwise. */
  lemma AddKeyframeUndoRemovesFirstMatch(kf: BoneKeyframe, kfs: seq<BoneKeyframe>)
    ensures var r := Undo(AddKeyframe(kf), kfs);
      match FirstMatch(kfs, SameSlot(kf), 0)
      case Some(i) => |r| == |kfs| - 1 && r == kfs[..i] + kfs[i + 1..]
      case None => r == kfs
  {
  }

  /** With no keyframe of the bone within the tolerance beforehand, execute
      then undo gives back the track exactly. */
  lemma AddKeyframeRoundTrip(kf: BoneKeyframe, kfs: seq<BoneKeyframe>)
    requires FirstMatch(kfs, SameSlot(kf), 0).None?
    ensures Undo(AddKeyframe(kf), Execute(AddKeyframe(kf), kfs)) == kfs
  {
    var k := FirstLater(kfs, KfTime, kf.time);
    var r := InsertBy(kfs, kf, KfTime);
    InsertByThenRemove(kfs, kf, KfTime);
    SpliceIndices(kfs, k, kf);
    assert r == kfs[..k] + [kf] + kfs[k..];
    var p := SameSlot(kf);
    assert p(kf);
    forall j | 0 <= j < k
      ensures !p(r[j])
    {
      assert r[j] == kfs[j];
    }
    FirstMatchAt(r, p, k);
  }

  /** The first-match search can pick an older keyframe: with a keyframe
      already at the same time, undo removes that older one and keeps the
      added one. */
  lemma AddKeyframeUndoRemovesOlder()
    ensures var older := BoneKeyframe(1.0, "arm", BoneTransform(), EaseIn);
      var added := BoneKeyframe(1.0, "arm", BoneTransform());
      Undo(AddKeyframe(added), Execute(AddKeyframe(added), [older])) == [added]
  {
    var older := BoneKeyframe(1.0, "arm", BoneTransform(), EaseIn);
    var added := BoneKeyframe(1.0, "arm", BoneTransform());
    var r := Execute(AddKeyframe(added), [older]);
    assert FirstLater([older], KfTime, 1.0) == 1;
    assert r == [older, added];
    assert SameSlot(added)(older);
    assert FirstMatch(r, SameSlot(added), 0) == Some(0);
  }

  /** The evidently intended undo: remove the keyframe that execute
      inserted, which in a time-ordered track is the last keyframe equal to
      the command's keyframe. */
  function UndoAddFixed(kf: BoneKeyframe, kfs: seq<BoneKeyframe>): seq<BoneKeyframe> {
    match LastEqual(kfs, kf, |kfs|)
    case Some(i) => RemoveAt(kfs, i)
    case None => kfs
  }

  /** Index of the last element before `c` equal to `x`. */
  function LastEqual<T(==)>(s: seq<T>, x: T, c: nat): (r: Option<nat>)
    requires c <= |s|
    ensures r.Some? ==> r.value < c && s[r.value] == x
    ensures r.Some? ==> forall j :: r.value < j < c ==> s[j] != x
    ensures r.None? ==> forall j :: 0 <= j < c ==> s[j] != x
  {
    if c == 0 then None
    else if s[c - 1] == x then Some(c - 1)
    else LastEqual(s, x, c - 1)
  }

  lemma LastEqualAt<T>(s: seq<T>, x: T, k: nat)
    requires k < |s| && s[k] == x
    requires forall j :: k < j < |s| ==> s[j] != x
    ensures LastEqual(s, x, |s|) == Some(k)
  {
    var r := LastEqual(s, x, |s|);
  }

  /** On a time-ordered track the fixed undo inverts execute, whatever the
      track held at the same time. */
  lemma AddKeyframeFixedRoundTrip(kf: BoneKeyframe, kfs: seq<BoneKeyframe>)
    requires SortedBy(kfs, KfTime)
    ensures UndoAddFixed(kf, Execute(AddKeyframe(kf), kfs)) == kfs
  {
    var k := FirstLater(kfs, KfTime, kf.time);
    var r := InsertBy(kfs, kf, KfTime);
    InsertByThenRemove(kfs, kf, KfTime);
    InsertByKeepsOrder(kfs, kf, KfTime);
    forall j | k < j < |r|
      ensures r[j] != kf
    {
      assert KfTime(r[j]) > KfTime(kf);
    }
    LastEqualAt(r, kf, k);
    assert UndoAddFixed(kf, r) == RemoveAt(r, k);
  }

  // ----- DeleteKeyframeCommand ---------------------------------------------

  /** With an invalid index both directions change nothing. */
  lemma DeleteKeyframeInvalid(kfs: seq<BoneKeyframe>, index: int)
    requires !(0 <= index < |kfs|)
    ensures Execute(NewDeleteKeyframe(kfs, index), kfs) == kfs
    ensures Undo(NewDeleteKeyframe(kfs, index), kfs) == kfs
  {
  }

  /** With a valid index, execute shortens the track by one; undo re-inserts
      the snapshot in time order. On a time-ordered track whose deleted
      keyframe is strictly earlier than its successor, the round trip is
      exact; on any time-ordered track it gives back the same keyframes,
      still in time order. */
  lemma DeleteKeyframeRoundTrip(kfs: seq<BoneKeyframe>, index: int)
    requires 0 <= index < |kfs| && SortedBy(kfs, KfTime)
    ensures |Execute(NewDeleteKeyframe(kfs, index), kfs)| == |kfs| - 1
    ensures var r := Undo(NewDeleteKeyframe(kfs, index), Execute(NewDeleteKeyframe(kfs, index), kfs));
      multiset(r) == multiset(kfs) && SortedBy(r, KfTime)
    ensures index + 1 == |kfs| || kfs[index].time < kfs[index + 1].time
      ==> Undo(NewDeleteKeyframe(kfs, index), Execute(NewDeleteKeyframe(kfs, index), kfs)) == kfs
  {
    var x := kfs[index];
    var s := RemoveAt(kfs, index);
    RemoveAtKeepsOrder(kfs, index);
    InsertByKeepsOrder(s, x, KfTime);
    if index + 1 == |kfs| || kfs[index].time < kfs[index + 1].time {
      ReinsertAtSamePlace(kfs, index);
    }
  }

  lemma RemoveAtKeepsOrder(kfs: seq<BoneKeyframe>, index: nat)
    requires index < |kfs| && SortedBy(kfs, KfTime)
    ensures SortedBy(RemoveAt(kfs, index), KfTime)
    ensures multiset(RemoveAt(kfs, index)) + multiset{kfs[index]} == multiset(kfs)
  {
    var s := RemoveAt(kfs, index);
    assert kfs == kfs[..index] + [kfs[index]] + kfs[index + 1..];
    assert s == kfs[..index] + kfs[index + 1..];
    forall i, j | 0 <= i < j < |s|
      ensures s[i].time <= s[j].time
    {
      var i' := if i < index then i else i + 1;
      var j' := if j < index then j else j + 1;
      assert s[i] == kfs[i'] && s[j] == kfs[j'];
    }
  }

  lemma ReinsertAtSamePlace(kfs: seq<BoneKeyframe>, index: nat)
    requires index < |kfs| && SortedBy(kfs, KfTime)
    requires index + 1 == |kfs| || kfs[index].time < kfs[index + 1].time
    ensures InsertBy(RemoveAt(kfs, index), kfs[index], KfTime) == kfs
  {
    var x := kfs[index];
    var s := RemoveAt(kfs, index);
    forall j | 0 <= j < index
      ensures KfTime(s[j]) <= x.time
    {
      assert s[j] == kfs[j];
    }
    if index < |s| {
      assert s[index] == kfs[index + 1];
    }
    FirstLaterAt(s, KfTime, x.time, index);
    assert s[..index] == kfs[..index] && s[index..] == kfs[index + 1..];
    assert kfs == kfs[..index] + [x] + kfs[index + 1..];
  }

  // ----- ModifyKeyframeCommand / SetInterpolationCommand -------------------

  /** Execute and undo set transform, time and interpolation of the target
      keyframe to the new and the old values and touch no other keyframe;
      when the old values are the keyframe's own, undo restores the track. */
  lemma ModifyKeyframeRoundTrip(
    kfs: seq<BoneKeyframe>, target: nat, newTransform: BoneTransform,
    newTime: Option<real>, newInterpolation: Option<InterpolationType>)
    requires target < |kfs|
    ensures var c := NewModifyKeyframe(kfs, target, kfs[target].transform, newTransform,
        None, newTime, None, newInterpolation);
      var r := Execute(c, kfs);
      && |r| == |kfs|
      && r[target].transform == newTransform
      && r[target].time == (if newTime.Some? then newTime.value else kfs[target].time)
      && r[target].interpolation == (if newInterpolation.Some? then newInterpolation.value else kfs[target].interpolation)
      && r[target].boneName == kfs[target].boneName
      && (forall j :: 0 <= j < |kfs| && j != target ==> r[j] == kfs[j])
      && Undo(c, r) == kfs
  {
  }

  lemma SetInterpolationRoundTrip(kfs: seq<BoneKeyframe>, target: nat, after: InterpolationType)
    requires target < |kfs|
    ensures var c := SetInterpolation(target, kfs[target].interpolation, after);
      Execute(c, kfs)[target].interpolation == after
      && Undo(c, Execute(c, kfs)) == kfs
      && Execute(c, Undo(c, Execute(c, kfs))) == Execute(c, kfs)
  {
  }

  // ----- MoveKeyframeCommand -----------------------------------------------

  /** Both directions leave the track in time order; execute changes only
      the moved keyframe's time. */
  lemma MoveKeyframeExecute(index: int, fromTime: real, toTime: real, kfs: seq<BoneKeyframe>)
    requires 0 <= index < |kfs|
    ensures var r := Execute(MoveKeyframe(index, fromTime, toTime), kfs);
      SortedBy(r, KfTime)
      && multiset(r) == multiset(kfs) - multiset{kfs[index]} + multiset{kfs[index].(time := toTime)}
  {
    var m := kfs[index := kfs[index].(time := toTime)];
    assert Execute(MoveKeyframe(index, fromTime, toTime), kfs) == SortBy(m, KfTime);
    DragKeepsOrder(kfs, index, toTime);
  }

  lemma MoveKeyframeUndo(index: int, fromTime: real, toTime: real, kfs: seq<BoneKeyframe>)
    ensures SortedBy(Undo(MoveKeyframe(index, fromTime, toTime), kfs), KfTime)
  {
    match FirstMatch(kfs, Within(KfTime, toTime, TimeTolerance), 0)
    case Some(j) => SortBySorted(kfs[j := kfs[j].(time := fromTime)], KfTime);
    case None => SortBySorted(kfs, KfTime);
  }

  /** On a track with distinct times, moving a keyframe to a time no other
      keyframe lies within the tolerance of, then undoing, gives back the
      track exactly: undo finds the moved keyframe, restores its time, and
      the re-sort puts it back in its place. */
  lemma MoveKeyframeRoundTrip(kfs: seq<BoneKeyframe>, index: nat, toTime: real)
    requires StrictlySortedBy(kfs, KfTime) && index < |kfs|
    requires forall j :: 0 <= j < |kfs| && j != index ==> Abs(kfs[j].time - toTime) >= TimeTolerance
    ensures var c := MoveKeyframe(index, kfs[index].time, toTime);
      Undo(c, Execute(c, kfs)) == kfs
  {
    var c := MoveKeyframe(index, kfs[index].time, toTime);
    var kf := kfs[index];
    var moved := kf.(time := toTime);
    var r := SortBy(kfs[index := moved], KfTime);
    assert Execute(c, kfs) == r;
    var q := MovedIsFound(kfs, index, toTime);
    var back := r[q := kf];
    assert moved.(time := kf.time) == kf;
    assert Undo(c, r) == SortBy(back, KfTime);
    DragKeepsOrder(kfs, index, toTime);
    UpdateBack(r, q, multiset(kfs), kf, moved);
    SortBySorted(back, KfTime);
    SortedUnique(SortBy(back, KfTime), kfs, KfTime);
  }

  /** After the move, the first keyframe within the tolerance of the new
      time is the moved one. */
  lemma MovedIsFound(kfs: seq<BoneKeyframe>, index: nat, toTime: real) returns (q: nat)
    requires index < |kfs|
    requires forall j :: 0 <= j < |kfs| && j != index ==> Abs(kfs[j].time - toTime) >= TimeTolerance
    ensures var r := Execute(MoveKeyframe(index, kfs[index].time, toTime), kfs);
      && FirstMatch(r, Within(KfTime, toTime, TimeTolerance), 0) == Some(q)
      && r[q] == kfs[index].(time := toTime)
  {
    var moved := kfs[index].(time := toTime);
    var m := kfs[index := moved];
    var r := SortBy(m, KfTime);
    assert Execute(MoveKeyframe(index, kfs[index].time, toTime), kfs) == r;
    var w := Within(KfTime, toTime, TimeTolerance);
    assert w(moved) by {
      assert Abs(moved.time - toTime) == 0.0;
    }
    forall j | 0 <= j < |m| && j != index
      ensures !w(m[j])
    {
      assert m[j] == kfs[j];
      assert KfTime(m[j]) == kfs[j].time;
      assert w(m[j]) == (Abs(KfTime(m[j]) - toTime) < TimeTolerance);
    }
    assert m[index] == moved;
    q := OnlyMatchFound(m, r, w, moved);
  }

  // ----- BoneManipulationCommand -------------------------------------------

  /** Execute leaves the new transform on the first keyframe within the
      tolerance of the command's time, adding at most one keyframe. */
  lemma BoneManipulationExecute(bone: string, prev: BoneTransform, tr: BoneTransform, at: real, kfs: seq<BoneKeyframe>)
    ensures var r := Execute(BoneManipulation(bone, prev, tr, at), kfs);
      && FirstMatch(r, Within(KfTime, at, TimeTolerance), 0).Some?
      && r[FirstMatch(r, Within(KfTime, at, TimeTolerance), 0).value].transform == tr
      && |kfs| <= |r| <= |kfs| + 1
  {
    SetOrAddResult(kfs, at, bone, tr);
  }

  /** When a keyframe already sat at the time with the recorded old
      transform, and that transform is not all zero, undo restores it. */
  lemma BoneManipulationUndoRestores(bone: string, tr: BoneTransform, at: real, kfs: seq<BoneKeyframe>)
    requires FirstMatch(kfs, Within(KfTime, at, TimeTolerance), 0).Some?
    requires !IsZeroTransform(kfs[FirstMatch(kfs, Within(KfTime, at, TimeTolerance), 0).value].transform)
    ensures var i := FirstMatch(kfs, Within(KfTime, at, TimeTolerance), 0).value;
      var c := BoneManipulation(bone, kfs[i].transform, tr, at);
      Undo(c, Execute(c, kfs)) == kfs
  {
    var i := FirstMatch(kfs, Within(KfTime, at, TimeTolerance), 0).value;
    UpdateNear(kfs, at, i, tr);
  }

  /** When no keyframe sat at the time and the old transform is all zero,
      undo removes the keyframe execute created. */
  lemma BoneManipulationUndoRemovesCreated(bone: string, prev: BoneTransform, tr: BoneTransform, at: real, kfs: seq<BoneKeyframe>)
    requires FirstMatch(kfs, Within(KfTime, at, TimeTolerance), 0).None?
    requires IsZeroTransform(prev)
    ensures Undo(BoneManipulation(bone, prev, tr, at), Execute(BoneManipulation(bone, prev, tr, at), kfs)) == kfs
  {
    AddNear(kfs, at, bone, tr);
    InsertByThenRemove(kfs, BoneKeyframe(at, bone, tr), KfTime);
  }

  /** A drag on a bone without keyframes records `BoneTransform()` = (0, 0,
      0, 1) as its old transform, which is not all zero: undo then keeps
      the created keyframe, with the identity transform. */
  lemma BoneManipulationUndoKeepsCreated(bone: string, tr: BoneTransform)
    ensures var c := BoneManipulation(bone, BoneTransform(), tr, 0.0);
      Undo(c, Execute(c, [])) == [BoneKeyframe(0.0, bone, BoneTransform())]
  {
    var c := BoneManipulation(bone, BoneTransform(), tr, 0.0);
    AddNear([], 0.0, bone, tr);
  }

  /** The evidently intended command records whether execute found a
      keyframe at the time, and undo removes the keyframe exactly when it
      did not. */
  datatype Manipulation = Manipulation(boneName: string, oldTransform: BoneTransform, newTransform: BoneTransform, at: real, existed: bool)

  function NewManipulation(kfs: seq<BoneKeyframe>, bone: string, prev: BoneTransform, tr: BoneTransform, at: real): Manipulation {
    Manipulation(bone, prev, tr, at, FirstMatch(kfs, Within(KfTime, at, TimeTolerance), 0).Some?)
  }

  function ManipulationUndoFixed(c: Manipulation, kfs: seq<BoneKeyframe>): seq<BoneKeyframe> {
    match FirstMatch(kfs, Within(KfTime, c.at, TimeTolerance), 0)
    case Some(i) => if !c.existed then RemoveAt(kfs, i) else kfs[i := kfs[i].(transform := c.oldTransform)]
    case None => kfs
  }

  /** With the old transform read from the keyframe at the time (when there
      is one), the fixed undo inverts execute in both cases, whatever the
      old transform's value. */
  lemma ManipulationFixedRoundTrip(bone: string, prev: BoneTransform, tr: BoneTransform, at: real, kfs: seq<BoneKeyframe>)
    requires FirstMatch(kfs, Within(KfTime, at, TimeTolerance), 0).Some?
      ==> prev == kfs[FirstMatch(kfs, Within(KfTime, at, TimeTolerance), 0).value].transform
    ensures ManipulationUndoFixed(NewManipulation(kfs, bone, prev, tr, at), SetOrAdd(kfs, at, bone, tr)) == kfs
  {
    match FirstMatch(kfs, Within(KfTime, at, TimeTolerance), 0)
    case Some(i) =>
      UpdateNear(kfs, at, i, tr);
    case None =>
      AddNear(kfs, at, bone, tr);
      InsertByThenRemove(kfs, BoneKeyframe(at, bone, tr), KfTime);
  }

  // ----- ClearAnimationCommand ---------------------------------------------

  /** The animation as `ClearAnimationCommand` sees it: the keyframe list of
      every bone's track and the current time. */
  datatype Animation = Animation(tracks: map<string, seq<BoneKeyframe>>, currentTime: real)

  datatype ClearAnimation = ClearAnimation(oldTracks: map<string, seq<BoneKeyframe>>, oldTime: real)

  function NewClearAnimation(a: Animation): ClearAnimation {
    ClearAnimation(a.tracks, a.currentTime)
  }

  function ClearExecute(c: ClearAnimation, a: Animation): (r: Animation) {
    Animation(map b | b in a.tracks :: [], 0.0)
  }

  function ClearUndo(c: ClearAnimation, a: Animation): Animation {
    Animation(c.oldTracks, c.oldTime)
  }

  /** Execute empties every track, keeps every bone's track and resets the
      time; undo gives back the tracks and the time. */
  lemma ClearAnimationRoundTrip(a: Animation)
    ensures var r := ClearExecute(NewClearAnimation(a), a);
      && r.currentTime == 0.0
      && r.tracks.Keys == a.tracks.Keys
      && (forall b :: b in r.tracks ==> r.tracks[b] == [])
      && ClearUndo(NewClearAnimation(a), r) == a
  {
  }
}
