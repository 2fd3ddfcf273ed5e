/** The playback clock and keyframe recording of `AnimatorEditor`
    (pyspine/boneless_animate_editor.py): the scene's instances, one
    `AnimationTrack` per instance, the current time, the duration and the
    frame rate.

    `AnimInstance` has the fields of the scene editor's `SceneInstance`
    and is modelled by it. The wall clock read by `update` and
    `toggle_playback` is the parameter `now`. */
module BonelessAnimator {
  import opened Types
  import opened KeyframeOrder
  import AnimationEditor
  import Scene
  import opened BonelessTrack

  type Instance = Scene.SceneInstance

  // ----- time -----------------------------------------------------------------

  /** `step_frame` as written: the stepped time goes through `int()`, so
      the result is always a whole number of seconds. */
  function StepFrameTime(t: real, direction: int, fps: int, duration: real): int
    requires fps > 0
  {
    AnimationEditor.TimelineTime(t + direction as real * (1.0 / fps as real), duration)
  }

  /** `step_frame` as evidently intended: one frame, clamped to
      [0, duration]. */
  function StepFrameTimeFixed(t: real, direction: int, fps: int, duration: real): real
    requires fps > 0
  {
    AnimationEditor.ClampTime(t + direction as real * (1.0 / fps as real), duration)
  }

  /** `step_frame` as written stays a whole number in [0, duration]; from
      a whole second, a step forward at more than one frame per second
      stays on that second. */
  lemma StepFrameTimeStuck(n: nat, fps: int, duration: real)
    requires fps > 1 && n as real + 1.0 <= duration
    ensures StepFrameTime(n as real, 1, fps, duration) == n
  {
    var step := 1.0 / fps as real;
    assert 0.0 < step < 1.0 by {
      assert step * fps as real == 1.0;
    }
    var raw := n as real + 1 as real * step;
    assert MinReal(duration, raw) == raw;
    assert PyInt(raw) == n;
  }

  /** A step back from 2.0 s at 30 frames per second lands on 1 s, not on
      one frame earlier. */
  lemma StepFrameTimeBackSkips()
    ensures StepFrameTime(2.0, -1, 30, 5.0) == 1
    ensures StepFrameTimeFixed(2.0, -1, 30, 5.0) == 2.0 - 1.0 / 30.0
  {
    var raw := 2.0 + (-1) as real * (1.0 / 30 as real);
    assert raw == 2.0 - 1.0 / 30.0;
    assert MinReal(5.0, raw) == raw;
    assert PyInt(raw) == 1;
  }

  /** The corrected step moves by exactly one frame whenever that stays in
      [0, duration], and is never outside it. */
  lemma StepFrameTimeFixedMoves(t: real, direction: int, fps: int, duration: real)
    requires fps > 0 && duration >= 0.0
    ensures 0.0 <= StepFrameTimeFixed(t, direction, fps, duration) <= duration
    ensures var raw := t + direction as real * (1.0 / fps as real);
      0.0 <= raw <= duration ==> StepFrameTimeFixed(t, direction, fps, duration) == raw
  {
  }

  // ----- keyframes taken from an instance ------------------------------------

  function InstancePose(inst: Instance): Pose {
    Pose(inst.x, inst.y, inst.rotation, inst.scaleX, inst.scaleY, inst.opacity)
  }

  /** The update branch of `add_keyframe_at_current_time`: the six channels
      are copied from the instance, time and interpolation are kept. */
  function Capture(kf: Keyframe, inst: Instance): (r: Keyframe)
    ensures PoseOf(r) == InstancePose(inst)
    ensures r.time == kf.time && r.interpolation == kf.interpolation && r.instanceId == kf.instanceId
  {
    kf.(x := inst.x, y := inst.y, rotation := inst.rotation, scaleX := inst.scaleX,
        scaleY := inst.scaleY, opacity := inst.opacity)
  }

  /** `add_keyframe_at_current_time` on one track: overwrite the first
      keyframe within 0.016 s of `time`, or insert a new LINEAR one. */
  function Record(kfs: seq<Keyframe>, time: real, id: string, inst: Instance): seq<Keyframe> {
    match FirstMatch(kfs, Within(KfTime, time, Tolerance), 0)
    case Some(i) => kfs[i := Capture(kfs[i], inst)]
    case None => InsertBy(kfs, Capture(Keyframe(time, id), inst), KfTime)
  }

  /** After `Record`, looking up `time` finds a keyframe holding the
      instance's values; a keyframe was added only when none was near;
      time order is kept. */
  lemma RecordThenLookup(kfs: seq<Keyframe>, time: real, id: string, inst: Instance)
    ensures var r := Record(kfs, time, id, inst);
      var m := FirstMatch(r, Within(KfTime, time, Tolerance), 0);
      m.Some? && PoseOf(r[m.value]) == InstancePose(inst)
      && |r| == (if FirstMatch(kfs, Within(KfTime, time, Tolerance), 0).Some? then |kfs| else |kfs| + 1)
    ensures SortedBy(kfs, KfTime) ==> SortedBy(Record(kfs, time, id, inst), KfTime)
  {
    var near := Within(KfTime, time, Tolerance);
    match FirstMatch(kfs, near, 0)
    case Some(i) => RecordOverwrites(kfs, time, inst, i);
    case None => RecordInserts(kfs, time, id, inst);
  }

  /** The overwrite branch of `RecordThenLookup`. */
  lemma RecordOverwrites(kfs: seq<Keyframe>, time: real, inst: Instance, i: nat)
    requires FirstMatch(kfs, Within(KfTime, time, Tolerance), 0) == Some(i)
    ensures var r := kfs[i := Capture(kfs[i], inst)];
      FirstMatch(r, Within(KfTime, time, Tolerance), 0) == Some(i)
      && (SortedBy(kfs, KfTime) ==> SortedBy(r, KfTime))
  {
    var near := Within(KfTime, time, Tolerance);
    var r := kfs[i := Capture(kfs[i], inst)];
    assert near(r[i]) == (Abs(KfTime(r[i]) - time) < Tolerance);
    assert near(kfs[i]) == (Abs(KfTime(kfs[i]) - time) < Tolerance);
    forall j | 0 <= j < i
      ensures !near(r[j])
    {
      assert r[j] == kfs[j];
    }
    FirstMatchAt(r, near, i);
    if SortedBy(kfs, KfTime) {
      assert forall j :: 0 <= j < |r| ==> KfTime(r[j]) == KfTime(kfs[j]);
    }
  }

  /** The insert branch of `RecordThenLookup`. */
  lemma RecordInserts(kfs: seq<Keyframe>, time: real, id: string, inst: Instance)
    requires FirstMatch(kfs, Within(KfTime, time, Tolerance), 0).None?
    ensures var x := Capture(Keyframe(time, id), inst);
      var r := InsertBy(kfs, x, KfTime);
      FirstMatch(r, Within(KfTime, time, Tolerance), 0) == Some(FirstLater(kfs, KfTime, time))
      && r[FirstLater(kfs, KfTime, time)] == x
      && (SortedBy(kfs, KfTime) ==> SortedBy(r, KfTime))
  {
    var near := Within(KfTime, time, Tolerance);
    var x := Capture(Keyframe(time, id), inst);
    var k := FirstLater(kfs, KfTime, time);
    var r := InsertBy(kfs, x, KfTime);
    SpliceIndices(kfs, k, x);
    assert r == kfs[..k] + [x] + kfs[k..];
    assert near(x) == (Abs(KfTime(x) - time) < Tolerance);
    assert forall j :: 0 <= j < k ==> !near(r[j]);
    FirstMatchAt(r, near, k);
    if SortedBy(kfs, KfTime) {
      InsertByKeepsOrder(kfs, x, KfTime);
    }
  }

  /** A track whose only keyframe was recorded from an instance gives the
      instance back its values at every time. */
  lemma RecordedSingleReplays(time: real, id: string, inst: Instance, t: real)
    ensures Evaluate(Record([], time, id, inst), t) == InstancePose(inst)
  {
    var r := Record([], time, id, inst);
    assert r == [Capture(Keyframe(time, id), inst)];
    EvaluateClamps(r, t);
  }

  /** `set_keyframe_interpolation` on one track. */
  function SetInterpolation(kfs: seq<Keyframe>, time: real, interp: Interpolation): (r: seq<Keyframe>)
    ensures |r| == |kfs|
    ensures forall j :: 0 <= j < |r| ==> KfTime(r[j]) == KfTime(kfs[j]) && PoseOf(r[j]) == PoseOf(kfs[j])
  {
    match FirstMatch(kfs, Within(KfTime, time, Tolerance), 0)
    case Some(i) => kfs[i := kfs[i].(interpolation := interp)]
    case None => kfs
  }

  /** Setting the interpolation keeps the order and touches only the first
      keyframe near `time`, which afterwards has the requested curve. */
  lemma SetInterpolationEffect(kfs: seq<Keyframe>, time: real, interp: Interpolation)
    ensures var m := FirstMatch(kfs, Within(KfTime, time, Tolerance), 0);
      var r := SetInterpolation(kfs, time, interp);
      (m.Some? ==> r[m.value].interpolation == interp
                   && forall j :: 0 <= j < |r| && j != m.value ==> r[j] == kfs[j])
      && (m.None? ==> r == kfs)
    ensures SortedBy(kfs, KfTime) ==> SortedBy(SetInterpolation(kfs, time, interp), KfTime)
  {
  }

  /** The instance after `apply_animation_at_time` copied a pose into it. */
  function Posed(inst: Instance, p: Pose): (r: Instance)
    ensures InstancePose(r) == p
    ensures r.(x := inst.x, y := inst.y, rotation := inst.rotation, scaleX := inst.scaleX,
               scaleY := inst.scaleY, opacity := inst.opacity) == inst
  {
    inst.(x := p.x, y := p.y, rotation := p.rotation, scaleX := p.scaleX, scaleY := p.scaleY, opacity := p.opacity)
  }

  // ----- the editor -----------------------------------------------------------

  class Animator {
    var instances: map<string, Instance>
    var tracks: map<string, AnimationTrack>
    var currentTime: real
    var duration: real
    const fps: int
    var playing: bool
    var lastUpdateTime: real
    var loopAnimation: bool

    /** Time stays in [0, duration], each instance has its own track, and
        every track is in time order. */
    ghost predicate Valid()
      reads this, tracks.Values
    {
      fps > 0 && duration > 0.0 && 0.0 <= currentTime <= duration
      && (forall a, b :: a in tracks && b in tracks && a != b ==> tracks[a] != tracks[b])
      && (forall a :: a in tracks ==> SortedBy(tracks[a].keyframes, KfTime))
    }

    /** `__init__`, with the instances and tracks that loading the scene
        and the project produces. */
    constructor (instances: map<string, Instance>, tracks: map<string, AnimationTrack>)
      requires forall a, b :: a in tracks && b in tracks && a != b ==> tracks[a] != tracks[b]
      requires forall a :: a in tracks ==> SortedBy(tracks[a].keyframes, KfTime)
      ensures Valid()
      ensures this.instances == instances && this.tracks == tracks
      ensures currentTime == 0.0 && duration == 5.0 && fps == 30
      ensures !playing && lastUpdateTime == 0.0 && loopAnimation
    {
      this.instances := instances;
      this.tracks := tracks;
      currentTime := 0.0;
      duration := 5.0;
      fps := 30;
      playing := false;
      lastUpdateTime := 0.0;
      loopAnimation := true;
    }

    /** `update` at wall-clock time `now`: the first call after starting
        only records the clock; reaching the duration loops to 0, or, with
        looping off, stops playback at the duration. */
    method Update(now: real)
      requires Valid() && now >= lastUpdateTime
      modifies this`currentTime, this`playing, this`lastUpdateTime
      ensures Valid()
      ensures !old(playing) ==>
        currentTime == old(currentTime) && !playing && lastUpdateTime == old(lastUpdateTime)
      ensures old(playing) ==> lastUpdateTime == now
      ensures old(playing) && old(lastUpdateTime) <= 0.0 ==> currentTime == old(currentTime) && playing
      ensures old(playing) && old(lastUpdateTime) > 0.0 ==>
        var t := old(currentTime) + (now - old(lastUpdateTime));
        if t < duration then currentTime == t && playing
        else if loopAnimation then currentTime == 0.0 && playing
        else currentTime == duration && !playing
    {
      if playing {
        if lastUpdateTime > 0.0 {
          var dt := now - lastUpdateTime;
          currentTime := currentTime + dt;
          if currentTime >= duration {
            if loopAnimation {
              currentTime := 0.0;
            } else {
              currentTime := duration;
              playing := false;
            }
          }
        }
        lastUpdateTime := now;
      }
    }

    /** `toggle_playback`. */
    method TogglePlayback(now: real)
      modifies this`playing, this`lastUpdateTime
      ensures playing == !old(playing)
      ensures lastUpdateTime == if playing then now else old(lastUpdateTime)
    {
      playing := !playing;
      if playing {
        lastUpdateTime := now;
      }
    }

    /** `step_frame` as written. */
    method StepFrame(direction: int)
      requires Valid()
      modifies this`currentTime
      ensures Valid()
      ensures currentTime == StepFrameTime(old(currentTime), direction, fps, duration) as real
    {
      var frameTime := 1.0 / fps as real;
      var newTime := currentTime + direction as real * frameTime;
      var n := MaxI(0, PyInt(MinReal(duration, newTime)));
      assert n == AnimationEditor.TimelineTime(newTime, duration);
      assert n == StepFrameTime(currentTime, direction, fps, duration);
      AnimationEditor.TimelineTimeInRange(newTime, duration);
      currentTime := n as real;
    }

    /** `step_frame` without the truncation. */
    method StepFrameFixed(direction: int)
      requires Valid()
      modifies this`currentTime
      ensures Valid()
      ensures currentTime == StepFrameTimeFixed(old(currentTime), direction, fps, duration)
    {
      var newTime := currentTime + direction as real * (1.0 / fps as real);
      currentTime := MaxReal(0.0, MinReal(duration, newTime));
    }

    /** `go_to_time`: truncated to whole seconds in [0, duration]. */
    method GoToTime(givenTime: real)
      requires Valid()
      modifies this`currentTime
      ensures Valid()
      ensures currentTime == AnimationEditor.TimelineTime(givenTime, old(duration)) as real
      ensures currentTime == currentTime.Floor as real
    {
      AnimationEditor.TimelineTimeInRange(givenTime, duration);
      currentTime := MaxI(0, PyInt(MinReal(duration, givenTime))) as real;
    }

    /** `set_duration`: non-positive values are ignored; the time is pulled
        back inside the new duration. */
    method SetDuration(newDuration: real)
      requires Valid()
      modifies this`duration, this`currentTime
      ensures Valid()
      ensures newDuration <= 0.0 ==> duration == old(duration) && currentTime == old(currentTime)
      ensures newDuration > 0.0 ==> duration == newDuration && currentTime == MinReal(old(currentTime), newDuration)
    {
      if newDuration > 0.0 {
        duration := newDuration;
        currentTime := MinReal(currentTime, duration);
      }
    }

    /** `add_keyframe_at_current_time`: only for an id with both an
        instance and a track. */
    method AddKeyframeAtCurrentTime(id: string)
      requires Valid()
      modifies if id in tracks then {tracks[id]} else {}
      ensures Valid()
      ensures id in instances && id in tracks ==>
        tracks[id].keyframes == Record(old(tracks[id].keyframes), currentTime, id, instances[id])
      ensures forall k :: k in tracks && !(k == id && id in instances) ==>
        tracks[k].keyframes == old(tracks[k].keyframes)
    {
      if id !in instances || id !in tracks {
        return;
      }
      var inst := instances[id];
      var track := tracks[id];
      RecordThenLookup(track.keyframes, currentTime, id, inst);
      var existing := track.GetKeyframeAtTime(currentTime);
      if existing.Some? {
        var m := FirstMatch(track.keyframes, Within(KfTime, currentTime, Tolerance), 0);
        track.keyframes := track.keyframes[m.value := Capture(existing.value, inst)];
      } else {
        track.AddKeyframe(Capture(Keyframe(currentTime, id), inst));
      }
    }

    /** `delete_keyframe_at_current_time`. */
    method DeleteKeyframeAtCurrentTime(id: string)
      requires Valid()
      modifies if id in tracks then {tracks[id]} else {}
      ensures Valid()
      ensures id in tracks ==>
        var m := FirstMatch(old(tracks[id].keyframes), Within(KfTime, currentTime, Tolerance), 0);
        tracks[id].keyframes == if m.Some? then RemoveAt(old(tracks[id].keyframes), m.value) else old(tracks[id].keyframes)
      ensures forall k :: k in tracks && k != id ==> tracks[k].keyframes == old(tracks[k].keyframes)
    {
      if id !in tracks {
        return;
      }
      var track := tracks[id];
      ghost var before := track.keyframes;
      var removed := track.RemoveKeyframeAtTime(currentTime);
      ghost var m := FirstMatch(before, Within(KfTime, currentTime, Tolerance), 0);
      if m.Some? {
        RemoveAtSorted(before, m.value);
      }
    }

    /** `set_keyframe_interpolation`. */
    method SetKeyframeInterpolation(id: string, givenTime: real, interp: Interpolation)
      requires Valid()
      modifies if id in tracks then {tracks[id]} else {}
      ensures Valid()
      ensures id in tracks ==> tracks[id].keyframes == SetInterpolation(old(tracks[id].keyframes), givenTime, interp)
      ensures forall k :: k in tracks && k != id ==> tracks[k].keyframes == old(tracks[k].keyframes)
    {
      if id !in tracks {
        return;
      }
      var track := tracks[id];
      SetInterpolationEffect(track.keyframes, givenTime, interp);
      var kf := track.GetKeyframeAtTime(givenTime);
      if kf.Some? {
        var m := FirstMatch(track.keyframes, Within(KfTime, givenTime, Tolerance), 0);
        track.keyframes := track.keyframes[m.value := kf.value.(interpolation := interp)];
      }
    }

    /** `apply_animation_at_time`: every instance with a track takes its
        track's values at `time`; nothing else changes. */
    method ApplyAnimationAtTime(time: real)
      modifies this`instances
      ensures instances.Keys == old(instances).Keys
      ensures forall id :: id in instances ==>
        instances[id] == if id in tracks then Posed(old(instances)[id], Evaluate(tracks[id].keyframes, time))
                         else old(instances)[id]
    {
      ghost var want := map id | id in tracks :: Evaluate(tracks[id].keyframes, time);
      var ts, init := tracks, instances;
      var acc := init;
      var rest := ts.Keys;
      while rest != {}
        invariant rest <= ts.Keys
        invariant acc.Keys == init.Keys
        invariant forall id :: id in acc ==>
          acc[id] == if id in want && id !in rest then Posed(init[id], want[id]) else init[id]
        decreases |rest|
      {
        var id :| id in rest;
        if id in acc {
          var p := ts[id].GetTransformAtTime(time);
          assert p == want[id];
          acc := acc[id := Posed(acc[id], p)];
        }
        rest := rest - {id};
      }
      instances := acc;
    }
  }

  /** Removing one keyframe keeps time order. */
  lemma RemoveAtSorted(kfs: seq<Keyframe>, i: nat)
    requires i < |kfs| && SortedBy(kfs, KfTime)
    ensures SortedBy(RemoveAt(kfs, i), KfTime)
  {
    var r := RemoveAt(kfs, i);
    assert forall j :: 0 <= j < |r| ==> r[j] == if j < i then kfs[j] else kfs[j + 1];
  }

  /** Applying the animation twice at the same time changes nothing more. */
  lemma PosedIdempotent(inst: Instance, p: Pose)
    ensures Posed(Posed(inst, p), p) == Posed(inst, p)
  {
  }
}
