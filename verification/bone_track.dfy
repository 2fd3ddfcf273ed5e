/** The animation editor's per-bone keyframe track (`BoneAnimationTrack` in
    PySpine_AnimationEditor.py and old_pyspine/animation_editor.py; the
    pygame loader's `PySpineAnimationTrack` evaluates the same way).

    A track is a list of keyframes kept in time order by `add_keyframe`.
    Evaluation clamps to the first keyframe at or before it and to the last
    at or after it; in between it finds the first pair of consecutive
    keyframes enclosing the time and blends their transforms channel by
    channel with the first keyframe's cubic easing. */
module BoneTrack {
  import opened Types
  import opened Easing
  import opened KeyframeOrder

  function KfTime(k: BoneKeyframe): real { k.time }

  /** Distance under which two times count as "the same" keyframe time. */
  const TimeTolerance: real := 0.01

  /** `_interpolate_transforms`: ease the segment parameter with the first
      keyframe's curve, then blend each channel. */
  function Blend(kf1: BoneKeyframe, kf2: BoneKeyframe, t: real): BoneTransform {
    var e := EaseCubic(kf1.interpolation, t);
    BoneTransform(
      Lerp(kf1.transform.x, kf2.transform.x, e),
      Lerp(kf1.transform.y, kf2.transform.y, e),
      Lerp(kf1.transform.rotation, kf2.transform.rotation, e),
      Lerp(kf1.transform.scale, kf2.transform.scale, e))
  }

  /** `get_transform_at_time`. The division is safe: see `BracketFromBelow`. */
  function Evaluate(kfs: seq<BoneKeyframe>, time: real): BoneTransform {
    if kfs == [] then BoneTransform()
    else if time <= kfs[0].time then kfs[0].transform
    else if time >= kfs[|kfs| - 1].time then kfs[|kfs| - 1].transform
    else match FirstBracket(kfs, KfTime, time, 0)
      case None => BoneTransform()
      case Some(i) =>
        BracketFromBelow(kfs, KfTime, time, 0);
        Segment(kfs, i, time)
  }

  /** The blend on the segment starting at keyframe `i`. */
  function Segment(kfs: seq<BoneKeyframe>, i: nat, time: real): BoneTransform
    requires i + 1 < |kfs| && kfs[i].time < kfs[i + 1].time
  {
    Blend(kfs[i], kfs[i + 1], (time - kfs[i].time) / (kfs[i + 1].time - kfs[i].time))
  }

  predicate Between(v: real, a: real, b: real) {
    MinReal(a, b) <= v <= MaxReal(a, b)
  }

  predicate TransformBetween(r: BoneTransform, a: BoneTransform, b: BoneTransform) {
    Between(r.x, a.x, b.x) && Between(r.y, a.y, b.y)
    && Between(r.rotation, a.rotation, b.rotation) && Between(r.scale, a.scale, b.scale)
  }

  /** A blend with parameter in [0,1] stays between the two keyframes on
      every channel, starts at the first and ends at the second. */
  lemma BlendBetween(kf1: BoneKeyframe, kf2: BoneKeyframe, t: real)
    requires InUnit(t)
    ensures TransformBetween(Blend(kf1, kf2, t), kf1.transform, kf2.transform)
    ensures Blend(kf1, kf2, 0.0) == kf1.transform && Blend(kf1, kf2, 1.0) == kf2.transform
  {
    var e := EaseCubic(kf1.interpolation, t);
    EaseCubicInUnit(kf1.interpolation, t);
    CubicEndpoints(kf1.interpolation);
    LerpBetween(kf1.transform.x, kf2.transform.x, e);
    LerpBetween(kf1.transform.y, kf2.transform.y, e);
    LerpBetween(kf1.transform.rotation, kf2.transform.rotation, e);
    LerpBetween(kf1.transform.scale, kf2.transform.scale, e);
  }

  /** An empty track gives the identity (0, 0, 0, 1); at or before the first
      keyframe the first transform, at or after the last the last one. */
  lemma EvaluateClamps(kfs: seq<BoneKeyframe>, time: real)
    ensures kfs == [] ==> Evaluate(kfs, time) == BoneTransform(0.0, 0.0, 0.0, 1.0)
    ensures kfs != [] && time <= kfs[0].time ==> Evaluate(kfs, time) == kfs[0].transform
    ensures kfs != [] && time >= kfs[|kfs| - 1].time && time > kfs[0].time
      ==> Evaluate(kfs, time) == kfs[|kfs| - 1].transform
  {
  }

  /** Strictly inside the keyframe range, ordered or not, the result is the
      eased blend of a consecutive pair whose distinct times enclose the
      time, and it lies between their transforms on every channel; the
      identity fallback after the scan is never taken. */
  lemma EvaluateInterior(kfs: seq<BoneKeyframe>, time: real)
    requires kfs != [] && kfs[0].time < time < kfs[|kfs| - 1].time
    ensures exists i :: (0 <= i < |kfs| - 1
      && kfs[i].time <= time <= kfs[i + 1].time && kfs[i].time < kfs[i + 1].time
      && Evaluate(kfs, time) == Blend(kfs[i], kfs[i + 1], (time - kfs[i].time) / (kfs[i + 1].time - kfs[i].time))
      && TransformBetween(Evaluate(kfs, time), kfs[i].transform, kfs[i + 1].transform))
  {
    BracketFromBelow(kfs, KfTime, time, 0);
    var i := FirstBracket(kfs, KfTime, time, 0).value;
    EvaluateAtBracket(kfs, time, i);
    var u := (time - kfs[i].time) / (kfs[i + 1].time - kfs[i].time);
    RatioInUnit(kfs[i].time, time, kfs[i + 1].time);
    BlendBetween(kfs[i], kfs[i + 1], u);
    assert Evaluate(kfs, time) == Blend(kfs[i], kfs[i + 1], u);
  }

  /** Inside the keyframe range, the scan's first bracket decides the result. */
  lemma EvaluateAtBracket(kfs: seq<BoneKeyframe>, time: real, i: nat)
    requires kfs != [] && kfs[0].time < time < kfs[|kfs| - 1].time
    requires FirstBracket(kfs, KfTime, time, 0) == Some(i)
    ensures i + 1 < |kfs| && kfs[i].time < kfs[i + 1].time
    ensures Evaluate(kfs, time) == Segment(kfs, i, time)
  {
    BracketFromBelow(kfs, KfTime, time, 0);
  }

  /** The id of the last keyframe among the first `c` that carries a
      non-empty sprite id, or `None`. */
  function LastSpriteBefore(kfs: seq<BoneKeyframe>, c: nat): (r: Option<string>)
    requires c <= |kfs|
    ensures r.Some? ==> IsSet(r)
  {
    if c == 0 then None
    else if IsSet(kfs[c - 1].spriteInstanceId) then kfs[c - 1].spriteInstanceId
    else LastSpriteBefore(kfs, c - 1)
  }

  /** `LastSpriteBefore` finds an id exactly when one of the first `c`
      keyframes has one, and then it is the id of the last such keyframe. */
  lemma {:induction false} LastSpriteBeforeSpec(kfs: seq<BoneKeyframe>, c: nat)
    requires c <= |kfs|
    ensures LastSpriteBefore(kfs, c).Some? <==> exists j :: 0 <= j < c && IsSet(kfs[j].spriteInstanceId)
    ensures LastSpriteBefore(kfs, c).Some? ==> exists j :: (0 <= j < c
      && LastSpriteBefore(kfs, c) == kfs[j].spriteInstanceId
      && forall k :: j < k < c ==> !IsSet(kfs[k].spriteInstanceId))
  {
    if c > 0 {
      if IsSet(kfs[c - 1].spriteInstanceId) {
        assert LastSpriteBefore(kfs, c) == kfs[c - 1].spriteInstanceId;
      } else {
        LastSpriteBeforeSpec(kfs, c - 1);
        if LastSpriteBefore(kfs, c).Some? {
          var j :| 0 <= j < c - 1 && LastSpriteBefore(kfs, c - 1) == kfs[j].spriteInstanceId
            && forall k :: j < k < c - 1 ==> !IsSet(kfs[k].spriteInstanceId);
          assert forall k :: j < k < c ==> !IsSet(kfs[k].spriteInstanceId);
        }
      }
    }
  }

  /** `_create_or_update_keyframe` and `BoneManipulationCommand.execute`:
      overwrite the transform of the first keyframe within the tolerance of
      `time`, or add a new keyframe there. */
  function SetOrAdd(kfs: seq<BoneKeyframe>, time: real, boneName: string, tr: BoneTransform): seq<BoneKeyframe> {
    match FirstMatch(kfs, Within(KfTime, time, TimeTolerance), 0)
    case Some(i) => kfs[i := kfs[i].(transform := tr)]
    case None => InsertBy(kfs, BoneKeyframe(time, boneName, tr), KfTime)
  }

  /** After `SetOrAdd`, the first keyframe near `time` carries the new
      transform; exactly one keyframe was added when none was near, none
      otherwise; time order is kept. */
  lemma SetOrAddResult(kfs: seq<BoneKeyframe>, time: real, boneName: string, tr: BoneTransform)
    ensures var r := SetOrAdd(kfs, time, boneName, tr);
      && FirstMatch(r, Within(KfTime, time, TimeTolerance), 0).Some?
      && r[FirstMatch(r, Within(KfTime, time, TimeTolerance), 0).value].transform == tr
      && |r| == (if FirstMatch(kfs, Within(KfTime, time, TimeTolerance), 0).Some? then |kfs| else |kfs| + 1)
    ensures SortedBy(kfs, KfTime) ==> SortedBy(SetOrAdd(kfs, time, boneName, tr), KfTime)
  {
    var near := Within(KfTime, time, TimeTolerance);
    match FirstMatch(kfs, near, 0)
    case Some(i) =>
      UpdateNear(kfs, time, i, tr);
    case None =>
      AddNear(kfs, time, boneName, tr);
  }

  lemma UpdateNear(kfs: seq<BoneKeyframe>, time: real, i: nat, tr: BoneTransform)
    requires FirstMatch(kfs, Within(KfTime, time, TimeTolerance), 0) == Some(i)
    ensures var r := kfs[i := kfs[i].(transform := tr)];
      FirstMatch(r, Within(KfTime, time, TimeTolerance), 0) == Some(i)
      && (SortedBy(kfs, KfTime) ==> SortedBy(r, KfTime))
  {
    var near := Within(KfTime, time, TimeTolerance);
    var r := kfs[i := kfs[i].(transform := tr)];
    assert near(kfs[i]);
    assert KfTime(r[i]) == KfTime(kfs[i]);
    assert near(r[i]) == (Abs(KfTime(r[i]) - time) < TimeTolerance);
    assert near(kfs[i]) == (Abs(KfTime(kfs[i]) - time) < TimeTolerance);
    forall j | 0 <= j < i
      ensures !near(r[j])
    {
      assert r[j] == kfs[j];
    }
    FirstMatchAt(r, near, i);
  }

  lemma AddNear(kfs: seq<BoneKeyframe>, time: real, boneName: string, tr: BoneTransform)
    requires FirstMatch(kfs, Within(KfTime, time, TimeTolerance), 0).None?
    ensures var r := InsertBy(kfs, BoneKeyframe(time, boneName, tr), KfTime);
      var k := FirstLater(kfs, KfTime, time);
      k < |r| && r[k].transform == tr
      && FirstMatch(r, Within(KfTime, time, TimeTolerance), 0) == Some(k)
      && (SortedBy(kfs, KfTime) ==> SortedBy(r, KfTime))
  {
    var near := Within(KfTime, time, TimeTolerance);
    var x := BoneKeyframe(time, boneName, tr);
    var k := FirstLater(kfs, KfTime, time);
    var r := InsertBy(kfs, x, KfTime);
    SpliceIndices(kfs, k, x);
    assert r == kfs[..k] + [x] + kfs[k..];
    assert near(x);
    assert forall j :: 0 <= j < k ==> !near(r[j]);
    FirstMatchAt(r, near, k);
    if SortedBy(kfs, KfTime) {
      InsertByKeepsOrder(kfs, x, KfTime);
    }
  }

  class BoneAnimationTrack {
    const boneName: string
    var keyframes: seq<BoneKeyframe>
    var selectedKeyframe: Option<int>

    constructor (boneName: string)
      ensures this.boneName == boneName && keyframes == [] && selectedKeyframe == None
    {
      this.boneName := boneName;
      keyframes := [];
      selectedKeyframe := None;
    }

    /** `add_keyframe`: insert in front of the first strictly later
        keyframe, or append. */
    method AddKeyframe(kf: BoneKeyframe)
      modifies this
      ensures keyframes == InsertBy(old(keyframes), kf, KfTime)
      ensures selectedKeyframe == old(selectedKeyframe)
    {
      var i := 0;
      while i < |keyframes|
        invariant 0 <= i <= |keyframes|
        invariant forall j :: 0 <= j < i ==> keyframes[j].time <= kf.time
      {
        if keyframes[i].time > kf.time {
          FirstLaterAt(keyframes, KfTime, kf.time, i);
          keyframes := keyframes[..i] + [kf] + keyframes[i..];
          return;
        }
        i := i + 1;
      }
      FirstLaterAt(keyframes, KfTime, kf.time, i);
      assert keyframes[..i] == keyframes && keyframes[i..] == [];
      keyframes := keyframes + [kf];
    }

    /** `get_transform_at_time`, with its bracket scan. */
    method GetTransformAtTime(time: real) returns (r: BoneTransform)
      ensures r == Evaluate(keyframes, time)
    {
      var kfs := keyframes;
      if |kfs| == 0 {
        return BoneTransform();
      }
      if time <= kfs[0].time {
        return kfs[0].transform;
      }
      if time >= kfs[|kfs| - 1].time {
        return kfs[|kfs| - 1].transform;
      }
      var i := 0;
      while i < |kfs| - 1
        invariant 0 <= i <= |kfs| - 1
        invariant FirstBracket(kfs, KfTime, time, i) == FirstBracket(kfs, KfTime, time, 0)
      {
        if kfs[i].time <= time <= kfs[i + 1].time {
          EvaluateAtBracket(kfs, time, i);
          return Segment(kfs, i, time);
        }
        i := i + 1;
      }
      return BoneTransform();
    }

    /** `get_sprite_at_time`: the scan stops at the first keyframe later
        than `time`, so the answer is the last non-empty sprite id among
        the keyframes before that point. */
    method GetSpriteAtTime(time: real) returns (r: Option<string>)
      ensures r == LastSpriteBefore(keyframes, FirstLater(keyframes, KfTime, time))
    {
      if |keyframes| == 0 {
        return None;
      }
      var active: Option<string> := None;
      var i := 0;
      while i < |keyframes|
        invariant 0 <= i <= |keyframes|
        invariant forall j :: 0 <= j < i ==> keyframes[j].time <= time
        invariant active == LastSpriteBefore(keyframes, i)
      {
        var kf := keyframes[i];
        if kf.time <= time && IsSet(kf.spriteInstanceId) {
          active := kf.spriteInstanceId;
        } else if kf.time > time {
          FirstLaterAt(keyframes, KfTime, time, i);
          return active;
        }
        i := i + 1;
      }
      FirstLaterAt(keyframes, KfTime, time, i);
      return active;
    }

    /** `_create_or_update_keyframe` once the track has been found. */
    method CreateOrUpdateKeyframe(currentTime: real, x: real, y: real, rotation: real, scale: real)
      modifies this
      ensures keyframes == SetOrAdd(old(keyframes), currentTime, boneName, BoneTransform(x, y, rotation, scale))
      ensures selectedKeyframe == old(selectedKeyframe)
    {
      var near := Within(KfTime, currentTime, TimeTolerance);
      var existing: Option<nat> := None;
      var i := 0;
      while i < |keyframes|
        invariant 0 <= i <= |keyframes|
        invariant FirstMatch(keyframes, near, i) == FirstMatch(keyframes, near, 0)
      {
        if near(keyframes[i]) {
          existing := Some(i);
          break;
        }
        i := i + 1;
      }
      var tr := BoneTransform(x, y, rotation, scale);
      if existing.Some? {
        var k := existing.value;
        keyframes := keyframes[k := keyframes[k].(transform := tr)];
      } else {
        AddKeyframe(BoneKeyframe(currentTime, boneName, tr));
      }
    }

    /** A keyframe drag: the selected keyframe gets the new time and the
        track is re-sorted by time (stably); an invalid selection changes
        nothing. The selection index is not updated by the sort. */
    method DragSelectedKeyframe(newTime: real)
      modifies this
      ensures match old(selectedKeyframe)
        case Some(k) =>
          if 0 <= k < |old(keyframes)|
          then keyframes == SortBy(old(keyframes)[k := old(keyframes)[k].(time := newTime)], KfTime)
          else keyframes == old(keyframes)
        case None => keyframes == old(keyframes)
      ensures selectedKeyframe == old(selectedKeyframe)
    {
      if selectedKeyframe.Some? && 0 <= selectedKeyframe.value < |keyframes| {
        var k := selectedKeyframe.value;
        keyframes := SortBy(keyframes[k := keyframes[k].(time := newTime)], KfTime);
      }
    }
  }

  /** After a drag the track is in time order and holds the same keyframes
      as before, apart from the dragged one's time. */
  lemma DragKeepsOrder(kfs: seq<BoneKeyframe>, k: nat, newTime: real)
    requires k < |kfs|
    ensures var r := SortBy(kfs[k := kfs[k].(time := newTime)], KfTime);
      SortedBy(r, KfTime)
      && multiset(r) == multiset(kfs) - multiset{kfs[k]} + multiset{kfs[k].(time := newTime)}
  {
    var m := kfs[k := kfs[k].(time := newTime)];
    SortBySorted(m, KfTime);
    assert kfs == kfs[..k] + [kfs[k]] + kfs[k + 1..];
    assert m == kfs[..k] + [kfs[k].(time := newTime)] + kfs[k + 1..];
  }
}
