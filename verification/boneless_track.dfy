/** The per-instance keyframe tracks of the "boneless" animators:
    `AnimationTrack` in pyspine/boneless_animate_editor.py (six channels,
    with a CONSTANT interpolation and a 0.016 s lookup tolerance) and its
    predecessor in pyspine/old_pyspine/boneless_editor.py (five channels,
    no opacity, no CONSTANT).

    Both keep keyframes in time order on insertion, clamp to the first and
    last keyframe outside the keyframe range, and blend the first enclosing
    pair inside it with the cubic easing curves. */
module BonelessTrack {
  import T = Types
  import E = Easing
  import opened KeyframeOrder

  /** The animator's `InterpolationType`; the older editor's enum has only
      the first four values. */
  datatype Interpolation = Linear | EaseIn | EaseOut | EaseInOut | Constant

  datatype Keyframe = Keyframe(
    time: real, instanceId: string,
    x: real := 0.0, y: real := 0.0, rotation: real := 0.0,
    scaleX: real := 1.0, scaleY: real := 1.0, opacity: real := 1.0,
    interpolation: Interpolation := Linear)

  /** (x, y, rotation, scale_x, scale_y, opacity). */
  datatype Pose = Pose(x: real, y: real, rotation: real, scaleX: real, scaleY: real, opacity: real)

  /** The old editor's five-channel keyframe and result. */
  datatype OldKeyframe = OldKeyframe(
    time: real, instanceId: string,
    x: real := 0.0, y: real := 0.0, rotation: real := 0.0,
    scaleX: real := 1.0, scaleY: real := 1.0,
    interpolation: Interpolation := Linear)

  datatype OldPose = OldPose(x: real, y: real, rotation: real, scaleX: real, scaleY: real)

  function KfTime(k: Keyframe): real { k.time }
  function OldKfTime(k: OldKeyframe): real { k.time }

  /** Default tolerance of `remove_keyframe_at_time` / `get_keyframe_at_time`. */
  const Tolerance: real := 0.016

  /** The easing branch of both evaluators: LINEAR and CONSTANT leave t. */
  function Ease(i: Interpolation, t: real): real {
    match i
    case EaseIn => E.CubicIn(t)
    case EaseOut => E.CubicOut(t)
    case EaseInOut => E.CubicInOut(t)
    case _ => t
  }

  lemma EaseInUnit(i: Interpolation, t: real)
    requires E.InUnit(t)
    ensures E.InUnit(Ease(i, t)) && Ease(i, 0.0) == 0.0 && Ease(i, 1.0) == 1.0
  {
    var kind := match i
      case EaseIn => T.EaseIn
      case EaseOut => T.EaseOut
      case EaseInOut => T.EaseInOut
      case _ => T.Linear;
    assert Ease(i, t) == E.EaseCubic(kind, t);
    E.EaseCubicInUnit(kind, t);
  }

  function PoseOf(k: Keyframe): Pose {
    Pose(k.x, k.y, k.rotation, k.scaleX, k.scaleY, k.opacity)
  }

  /** The result for an empty track, and the fallback after the scan. */
  const Identity: Pose := Pose(0.0, 0.0, 0.0, 1.0, 1.0, 1.0)

  /** One segment of `get_transform_at_time`: a CONSTANT first keyframe
      holds its values; otherwise t is the position in the segment (0 for a
      zero-length one), eased by the first keyframe's curve. */
  function Segment(kf1: Keyframe, kf2: Keyframe, time: real): Pose {
    if kf1.interpolation == Constant then PoseOf(kf1)
    else
      var t := if kf2.time != kf1.time then (time - kf1.time) / (kf2.time - kf1.time) else 0.0;
      var e := Ease(kf1.interpolation, t);
      Pose(E.Lerp(kf1.x, kf2.x, e), E.Lerp(kf1.y, kf2.y, e), E.Lerp(kf1.rotation, kf2.rotation, e),
           E.Lerp(kf1.scaleX, kf2.scaleX, e), E.Lerp(kf1.scaleY, kf2.scaleY, e),
           E.Lerp(kf1.opacity, kf2.opacity, e))
  }

  /** `AnimationTrack.get_transform_at_time`. */
  function Evaluate(kfs: seq<Keyframe>, time: real): Pose {
    if kfs == [] then Identity
    else if time <= kfs[0].time then PoseOf(kfs[0])
    else if time >= kfs[|kfs| - 1].time then PoseOf(kfs[|kfs| - 1])
    else match FirstBracket(kfs, KfTime, time, 0)
      case None => Identity
      case Some(i) => Segment(kfs[i], kfs[i + 1], time)
  }

  predicate Between(v: real, a: real, b: real) {
    T.MinReal(a, b) <= v <= T.MaxReal(a, b)
  }

  predicate PoseBetween(p: Pose, a: Keyframe, b: Keyframe) {
    Between(p.x, a.x, b.x) && Between(p.y, a.y, b.y) && Between(p.rotation, a.rotation, b.rotation)
    && Between(p.scaleX, a.scaleX, b.scaleX) && Between(p.scaleY, a.scaleY, b.scaleY)
    && Between(p.opacity, a.opacity, b.opacity)
  }

  /** An empty track gives (0,0,0,1,1,1); at or before the first keyframe
      its values, at or after the last keyframe its values. */
  lemma EvaluateClamps(kfs: seq<Keyframe>, time: real)
    ensures kfs == [] ==> Evaluate(kfs, time) == Pose(0.0, 0.0, 0.0, 1.0, 1.0, 1.0)
    ensures kfs != [] && time <= kfs[0].time ==> Evaluate(kfs, time) == PoseOf(kfs[0])
    ensures kfs != [] && kfs[0].time < time && time >= kfs[|kfs| - 1].time ==> Evaluate(kfs, time) == PoseOf(kfs[|kfs| - 1])
  {
  }

  /** A CONSTANT segment yields its first keyframe's values throughout, and
      a zero-length segment its first keyframe's values too. */
  lemma SegmentHolds(kf1: Keyframe, kf2: Keyframe, time: real)
    ensures kf1.interpolation == Constant ==> Segment(kf1, kf2, time) == PoseOf(kf1)
    ensures kf2.time == kf1.time ==> Segment(kf1, kf2, time) == PoseOf(kf1)
  {
    if kf1.interpolation != Constant && kf2.time == kf1.time {
      EaseInUnit(kf1.interpolation, 0.0);
      E.LerpEnds(kf1.x, kf2.x);
      E.LerpEnds(kf1.y, kf2.y);
      E.LerpEnds(kf1.rotation, kf2.rotation);
      E.LerpEnds(kf1.scaleX, kf2.scaleX);
      E.LerpEnds(kf1.scaleY, kf2.scaleY);
      E.LerpEnds(kf1.opacity, kf2.opacity);
    }
  }

  /** Strictly inside the keyframe range the first enclosing pair has two
      distinct times (so the zero-length branch is not reached there), and
      every channel of the result lies between that pair's values. */
  lemma EvaluateInterior(kfs: seq<Keyframe>, time: real)
    requires kfs != [] && kfs[0].time < time < kfs[|kfs| - 1].time
    ensures FirstBracket(kfs, KfTime, time, 0).Some?
    ensures var i := FirstBracket(kfs, KfTime, time, 0).value;
      kfs[i].time < kfs[i + 1].time
      && Evaluate(kfs, time) == Segment(kfs[i], kfs[i + 1], time)
      && PoseBetween(Evaluate(kfs, time), kfs[i], kfs[i + 1])
  {
    BracketFromBelow(kfs, KfTime, time, 0);
    var i := FirstBracket(kfs, KfTime, time, 0).value;
    assert Evaluate(kfs, time) == Segment(kfs[i], kfs[i + 1], time);
    SegmentBetween(kfs[i], kfs[i + 1], time);
  }

  /** Every channel of a segment with distinct times, at a time inside it,
      lies between its two keyframes' values. */
  lemma SegmentBetween(kf1: Keyframe, kf2: Keyframe, time: real)
    requires kf1.time <= time <= kf2.time && kf1.time < kf2.time
    ensures PoseBetween(Segment(kf1, kf2, time), kf1, kf2)
  {
    if kf1.interpolation != Constant {
      var t := if kf2.time != kf1.time then (time - kf1.time) / (kf2.time - kf1.time) else 0.0;
      assert E.InUnit(t) by { E.RatioInUnit(kf1.time, time, kf2.time); }
      var e := Ease(kf1.interpolation, t);
      assert E.InUnit(e) by { EaseInUnit(kf1.interpolation, t); }
      BlendBetween(kf1, kf2, e);
    }
  }

  /** A blend by a factor in [0, 1] keeps every channel between the two
      keyframes' values. */
  lemma BlendBetween(kf1: Keyframe, kf2: Keyframe, e: real)
    requires E.InUnit(e)
    ensures PoseBetween(Pose(E.Lerp(kf1.x, kf2.x, e), E.Lerp(kf1.y, kf2.y, e), E.Lerp(kf1.rotation, kf2.rotation, e),
                             E.Lerp(kf1.scaleX, kf2.scaleX, e), E.Lerp(kf1.scaleY, kf2.scaleY, e),
                             E.Lerp(kf1.opacity, kf2.opacity, e)), kf1, kf2)
  {
    E.LerpBetween(kf1.x, kf2.x, e);
    E.LerpBetween(kf1.y, kf2.y, e);
    E.LerpBetween(kf1.rotation, kf2.rotation, e);
    E.LerpBetween(kf1.scaleX, kf2.scaleX, e);
    E.LerpBetween(kf1.scaleY, kf2.scaleY, e);
    E.LerpBetween(kf1.opacity, kf2.opacity, e);
  }

  // ----- the old five-channel track ---------------------------------------

  function OldPoseOf(k: OldKeyframe): OldPose {
    OldPose(k.x, k.y, k.rotation, k.scaleX, k.scaleY)
  }

  /** The old segment: no CONSTANT case and no zero-length guard (the
      enclosing pair found from below always has distinct times). */
  function OldSegment(kfs: seq<OldKeyframe>, i: nat, time: real): OldPose
    requires i + 1 < |kfs| && kfs[i].time < kfs[i + 1].time
  {
    var kf1, kf2 := kfs[i], kfs[i + 1];
    var e := Ease(kf1.interpolation, (time - kf1.time) / (kf2.time - kf1.time));
    OldPose(E.Lerp(kf1.x, kf2.x, e), E.Lerp(kf1.y, kf2.y, e), E.Lerp(kf1.rotation, kf2.rotation, e),
            E.Lerp(kf1.scaleX, kf2.scaleX, e), E.Lerp(kf1.scaleY, kf2.scaleY, e))
  }

  /** The old `AnimationTrack.get_transform_at_time`. */
  function OldEvaluate(kfs: seq<OldKeyframe>, time: real): OldPose {
    if kfs == [] then OldPose(0.0, 0.0, 0.0, 1.0, 1.0)
    else if time <= kfs[0].time then OldPoseOf(kfs[0])
    else if time >= kfs[|kfs| - 1].time then OldPoseOf(kfs[|kfs| - 1])
    else match FirstBracket(kfs, OldKfTime, time, 0)
      case None => OldPose(0.0, 0.0, 0.0, 1.0, 1.0)
      case Some(i) =>
        BracketFromBelow(kfs, OldKfTime, time, 0);
        OldSegment(kfs, i, time)
  }

  /** Old track: (0,0,0,1,1) when empty, clamped outside the range, and an
      eased blend lying between the enclosing pair's values inside it. */
  lemma OldEvaluateSpec(kfs: seq<OldKeyframe>, time: real)
    ensures kfs == [] ==> OldEvaluate(kfs, time) == OldPose(0.0, 0.0, 0.0, 1.0, 1.0)
    ensures kfs != [] && time <= kfs[0].time ==> OldEvaluate(kfs, time) == OldPoseOf(kfs[0])
    ensures kfs != [] && kfs[0].time < time && time >= kfs[|kfs| - 1].time ==> OldEvaluate(kfs, time) == OldPoseOf(kfs[|kfs| - 1])
    ensures kfs != [] && kfs[0].time < time < kfs[|kfs| - 1].time ==>
      FirstBracket(kfs, OldKfTime, time, 0).Some? &&
      var i := FirstBracket(kfs, OldKfTime, time, 0).value;
      var p := OldEvaluate(kfs, time);
      Between(p.x, kfs[i].x, kfs[i + 1].x) && Between(p.y, kfs[i].y, kfs[i + 1].y)
      && Between(p.rotation, kfs[i].rotation, kfs[i + 1].rotation)
      && Between(p.scaleX, kfs[i].scaleX, kfs[i + 1].scaleX) && Between(p.scaleY, kfs[i].scaleY, kfs[i + 1].scaleY)
  {
    if kfs != [] && kfs[0].time < time < kfs[|kfs| - 1].time {
      BracketFromBelow(kfs, OldKfTime, time, 0);
      var i := FirstBracket(kfs, OldKfTime, time, 0).value;
      var kf1, kf2 := kfs[i], kfs[i + 1];
      var t := (time - kf1.time) / (kf2.time - kf1.time);
      E.RatioInUnit(kf1.time, time, kf2.time);
      var e := Ease(kf1.interpolation, t);
      EaseInUnit(kf1.interpolation, t);
      E.LerpBetween(kf1.x, kf2.x, e);
      E.LerpBetween(kf1.y, kf2.y, e);
      E.LerpBetween(kf1.rotation, kf2.rotation, e);
      E.LerpBetween(kf1.scaleX, kf2.scaleX, e);
      E.LerpBetween(kf1.scaleY, kf2.scaleY, e);
    }
  }

  /** The old `AnimationTrack`; only insertion and evaluation exist. */
  class OldAnimationTrack {
    const instanceId: string
    var keyframes: seq<OldKeyframe>

    constructor (instanceId: string)
      ensures this.instanceId == instanceId && keyframes == []
    {
      this.instanceId := instanceId;
      keyframes := [];
    }

    /** `add_keyframe`: in front of the first strictly later keyframe. */
    method AddKeyframe(kf: OldKeyframe)
      modifies this`keyframes
      ensures keyframes == InsertBy(old(keyframes), kf, OldKfTime)
      ensures SortedBy(old(keyframes), OldKfTime) ==> SortedBy(keyframes, OldKfTime)
    {
      InsertByKeepsOrderIf(keyframes, kf, OldKfTime);
      var i := 0;
      while i < |keyframes|
        invariant 0 <= i <= |keyframes|
        invariant forall j :: 0 <= j < i ==> keyframes[j].time <= kf.time
      {
        if keyframes[i].time > kf.time {
          FirstLaterAt(keyframes, OldKfTime, kf.time, i);
          keyframes := keyframes[..i] + [kf] + keyframes[i..];
          return;
        }
        i := i + 1;
      }
      FirstLaterAt(keyframes, OldKfTime, kf.time, i);
      assert keyframes[..i] == keyframes && keyframes[i..] == [];
      keyframes := keyframes + [kf];
    }

    /** `get_transform_at_time` with its scan. */
    method GetTransformAtTime(time: real) returns (r: OldPose)
      ensures r == OldEvaluate(keyframes, time)
    {
      var kfs := keyframes;
      if |kfs| == 0 {
        return OldPose(0.0, 0.0, 0.0, 1.0, 1.0);
      }
      if time <= kfs[0].time {
        return OldPoseOf(kfs[0]);
      }
      if time >= kfs[|kfs| - 1].time {
        return OldPoseOf(kfs[|kfs| - 1]);
      }
      var i := 0;
      while i < |kfs| - 1
        invariant 0 <= i <= |kfs| - 1
        invariant FirstBracket(kfs, OldKfTime, time, i) == FirstBracket(kfs, OldKfTime, time, 0)
      {
        if kfs[i].time <= time <= kfs[i + 1].time {
          OldEvaluateAtBracket(kfs, time, i);
          return OldSegment(kfs, i, time);
        }
        i := i + 1;
      }
      return OldPose(0.0, 0.0, 0.0, 1.0, 1.0);
    }
  }

  /** Inside the range, the old evaluation is the segment of the first
      enclosing pair, whose times differ. */
  lemma OldEvaluateAtBracket(kfs: seq<OldKeyframe>, time: real, i: nat)
    requires kfs != [] && kfs[0].time < time < kfs[|kfs| - 1].time
    requires FirstBracket(kfs, OldKfTime, time, 0) == T.Some(i)
    ensures i + 1 < |kfs| && kfs[i].time < kfs[i + 1].time
    ensures OldEvaluate(kfs, time) == OldSegment(kfs, i, time)
  {
    BracketFromBelow(kfs, OldKfTime, time, 0);
  }

  lemma InsertByKeepsOrderIf<K>(s: seq<K>, x: K, time: K -> real)
    ensures SortedBy(s, time) ==> SortedBy(InsertBy(s, x, time), time)
  {
    if SortedBy(s, time) {
      InsertByKeepsOrder(s, x, time);
    }
  }

  // ----- the animator's track ---------------------------------------------

  /** `AnimationTrack` of the animator. */
  class AnimationTrack {
    const instanceId: string
    var keyframes: seq<Keyframe>

    constructor (instanceId: string)
      ensures this.instanceId == instanceId && keyframes == []
    {
      this.instanceId := instanceId;
      keyframes := [];
    }

    /** `add_keyframe`. */
    method AddKeyframe(kf: Keyframe)
      modifies this`keyframes
      ensures keyframes == InsertBy(old(keyframes), kf, KfTime)
      ensures SortedBy(old(keyframes), KfTime) ==> SortedBy(keyframes, KfTime)
    {
      InsertByKeepsOrderIf(keyframes, kf, KfTime);
      var i := 0;
      while i < |keyframes|
        invariant 0 <= i <= |keyframes|
        invariant forall j :: 0 <= j < i ==> keyframes[j].time <= kf.time
      {
        if keyframes[i].time > kf.time {
          FirstLaterAt(keyframes, KfTime, kf.time, i);
          keyframes := keyframes[..i] + [kf] + keyframes[i..];
          return;
        }
        i := i + 1;
      }
      FirstLaterAt(keyframes, KfTime, kf.time, i);
      assert keyframes[..i] == keyframes && keyframes[i..] == [];
      keyframes := keyframes + [kf];
    }

    /** `remove_keyframe_at_time`: pops the first keyframe within the
        tolerance and reports whether there was one. */
    method RemoveKeyframeAtTime(time: real, tolerance: real := Tolerance) returns (removed: bool)
      modifies this`keyframes
      ensures var m := FirstMatch(old(keyframes), Within(KfTime, time, tolerance), 0);
        (removed <==> m.Some?)
        && (m.Some? ==> keyframes == T.RemoveAt(old(keyframes), m.value))
        && (m.None? ==> keyframes == old(keyframes))
      ensures |keyframes| == |old(keyframes)| - (if removed then 1 else 0)
    {
      var near := Within(KfTime, time, tolerance);
      var i := 0;
      while i < |keyframes|
        invariant 0 <= i <= |keyframes|
        invariant FirstMatch(keyframes, near, i) == FirstMatch(keyframes, near, 0)
      {
        assert near(keyframes[i]) == (T.Abs(KfTime(keyframes[i]) - time) < tolerance);
        if T.Abs(keyframes[i].time - time) < tolerance {
          keyframes := T.RemoveAt(keyframes, i);
          return true;
        }
        i := i + 1;
      }
      return false;
    }

    /** `get_keyframe_at_time`: the same first match, or nothing. */
    method GetKeyframeAtTime(time: real, tolerance: real := Tolerance) returns (r: T.Option<Keyframe>)
      ensures var m := FirstMatch(keyframes, Within(KfTime, time, tolerance), 0);
        (r.Some? <==> m.Some?) && (m.Some? ==> r.value == keyframes[m.value])
      ensures r.Some? ==> T.Abs(r.value.time - time) < tolerance
    {
      var near := Within(KfTime, time, tolerance);
      var i := 0;
      while i < |keyframes|
        invariant 0 <= i <= |keyframes|
        invariant FirstMatch(keyframes, near, i) == FirstMatch(keyframes, near, 0)
      {
        assert near(keyframes[i]) == (T.Abs(KfTime(keyframes[i]) - time) < tolerance);
        if T.Abs(keyframes[i].time - time) < tolerance {
          return T.Some(keyframes[i]);
        }
        i := i + 1;
      }
      return T.None;
    }

    /** `get_transform_at_time`. */
    method GetTransformAtTime(time: real) returns (r: Pose)
      ensures r == Evaluate(keyframes, time)
    {
      if |keyframes| == 0 {
        return Identity;
      }
      if time <= keyframes[0].time {
        return PoseOf(keyframes[0]);
      }
      if time >= keyframes[|keyframes| - 1].time {
        return PoseOf(keyframes[|keyframes| - 1]);
      }
      var i := 0;
      while i < |keyframes| - 1
        invariant 0 <= i <= |keyframes| - 1
        invariant FirstBracket(keyframes, KfTime, time, i) == FirstBracket(keyframes, KfTime, time, 0)
      {
        var kf1 := keyframes[i];
        var kf2 := keyframes[i + 1];
        if kf1.time <= time <= kf2.time {
          return Segment(kf1, kf2, time);
        }
        i := i + 1;
      }
      return Identity;
    }
  }

  /** Removing then looking up at the same time: a track holding one
      keyframe near `time` has none left after the removal. */
  lemma RemoveOnlyMatch(kfs: seq<Keyframe>, time: real, tol: real, k: nat)
    requires k < |kfs| && Within(KfTime, time, tol)(kfs[k])
    requires forall j :: 0 <= j < |kfs| && j != k ==> !Within(KfTime, time, tol)(kfs[j])
    ensures FirstMatch(kfs, Within(KfTime, time, tol), 0) == T.Some(k)
    ensures FirstMatch(T.RemoveAt(kfs, k), Within(KfTime, time, tol), 0).None?
  {
    var near := Within(KfTime, time, tol);
    FirstMatchAt(kfs, near, k);
    var r := T.RemoveAt(kfs, k);
    forall j | 0 <= j < |r|
      ensures !near(r[j])
    {
      if j < k { assert r[j] == kfs[j]; } else { assert r[j] == kfs[j + 1]; }
    }
  }
}
