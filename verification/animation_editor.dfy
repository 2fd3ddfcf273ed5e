/** Playback clock, world-transform rules and drag recording of the bone
    animation editor (pyspine/PySpine_AnimationEditor.py), with the clock of
    its predecessor old_pyspine/animation_editor.py.

    Times are `real`; Python's `int()` truncation is written out with
    `PyInt`. Elapsed wall-clock time arrives as the parameter `dt`. */
module AnimationEditor {
  import opened Types
  import opened BoneTrack

  // ----- Clock arithmetic ----------------------------------------------------

  /** `update` while playing: advance, and jump back to 0 on reaching the
      duration. */
  function LoopAdvance(t: real, dt: real, duration: real): real {
    if t + dt >= duration then 0.0 else t + dt
  }

  /** Starting inside [0, duration) and moving forward, the clock stays in
      [0, duration); with a non-positive duration it is always 0. */
  lemma LoopAdvanceInRange(t: real, dt: real, duration: real)
    requires 0.0 <= t && 0.0 <= dt
    ensures 0.0 <= LoopAdvance(t, dt, duration)
    ensures duration > 0.0 ==> LoopAdvance(t, dt, duration) < duration
    ensures duration <= 0.0 ==> LoopAdvance(t, dt, duration) == 0.0
    ensures t + dt < duration ==> LoopAdvance(t, dt, duration) == t + dt
  {
  }

  /** One frame back, as PySpine_AnimationEditor.py writes it: the result
      is truncated to a whole second. */
  function StepBackTruncated(t: real, fps: int): int
    requires fps > 0
  {
    MaxI(0, PyInt(t - 1.0 / fps as real))
  }

  /** One frame back, as old_pyspine/animation_editor.py writes it. */
  function StepBack(t: real, fps: int): real
    requires fps > 0
  {
    MaxReal(0.0, t - 1.0 / fps as real)
  }

  /** One frame forward, clamped at the duration (both editors). */
  function StepForward(t: real, fps: int, duration: real): real
    requires fps > 0
  {
    MinReal(duration, t + 1.0 / fps as real)
  }

  /** Stepping never leaves [0, duration]: back never goes below 0, forward
      never above the duration, and a step back from inside the range moves
      by exactly one frame unless it hits 0. */
  lemma StepBounds(t: real, fps: int, duration: real)
    requires fps > 0
    ensures StepBack(t, fps) >= 0.0 && StepBackTruncated(t, fps) >= 0
    ensures StepBack(t, fps) == t - 1.0 / fps as real || StepBack(t, fps) == 0.0
    ensures StepForward(t, fps, duration) <= duration
    ensures StepForward(t, fps, duration) <= t + 1.0 / fps as real
  {
  }

  /** The old editor's step back undoes a step forward that did not hit the
      duration. */
  lemma StepBackUndoesStepForward(t: real, fps: int, duration: real)
    requires fps > 0 && 0.0 <= t && t + 1.0 / fps as real <= duration
    ensures StepBack(StepForward(t, fps, duration), fps) == t
  {
  }

  /** The truncating step back does not: from 0.5 s at 30 fps, forward then
      back lands on 0, and from 2 s one step back lands on 1 s. */
  lemma StepBackTruncatedSkips()
    ensures StepBackTruncated(StepForward(0.5, 30, 5.0), 30) == 0
    ensures StepBackTruncated(2.0, 30) == 1
  {
    assert StepForward(0.5, 30, 5.0) == 0.5 + 1.0 / 30.0;
    assert PyInt(0.5) == 0;
    assert 2.0 - 1.0 / 30.0 == 59.0 / 30.0;
    assert PyInt(59.0 / 30.0) == 1;
  }

  /** Timeline click, timeline drag and keyframe drag in the new editor:
      `max(0, int(min(duration, raw)))`. */
  function TimelineTime(raw: real, duration: real): int {
    MaxI(0, PyInt(MinReal(duration, raw)))
  }

  /** The old editor's timeline and keyframe drags: `max(0, min(duration,
      raw))`. */
  function ClampTime(raw: real, duration: real): real {
    MaxReal(0.0, MinReal(duration, raw))
  }

  /** A timeline position is a whole number of seconds in [0, duration]
      (when the duration is not negative) and never exceeds the clamped
      time. */
  lemma TimelineTimeInRange(raw: real, duration: real)
    requires duration >= 0.0
    ensures 0 <= TimelineTime(raw, duration)
    ensures TimelineTime(raw, duration) as real <= duration
    ensures TimelineTime(raw, duration) as real <= ClampTime(raw, duration)
    ensures ClampTime(raw, duration) < TimelineTime(raw, duration) as real + 1.0
  {
  }

  lemma ClampTimeInRange(raw: real, duration: real)
    requires duration >= 0.0
    ensures 0.0 <= ClampTime(raw, duration) <= duration
    ensures 0.0 <= raw <= duration ==> ClampTime(raw, duration) == raw
  {
  }

  // ----- World transform of a root bone ----------------------------------------

  datatype WorldTransform = WorldTransform(x: real, y: real, rotation: real, scale: real)

  /** `max(0.1, scale) if scale != 0 else 1.0`. */
  function WorldScale(s: real): real {
    if s != 0.0 then MaxReal(0.1, s) else 1.0
  }

  /** A zero animated scale means "not animated" and gives 1; any other
      scale is kept but floored at 0.1, so a world scale is never below
      0.1. */
  lemma WorldScaleRule(s: real)
    ensures WorldScale(s) >= 0.1
    ensures s == 0.0 ==> WorldScale(s) == 1.0
    ensures s >= 0.1 ==> WorldScale(s) == s
    ensures s != 0.0 && s < 0.1 ==> WorldScale(s) == 0.1
  {
  }

  /** `get_bone_world_transform` for a bone without a parent in the bone
      map: the original position and angle plus the animated offset. A
      child bone's rotation is likewise its own angle plus the animated
      rotation, with the same scale rule; its position needs trigonometry
      and is not part of this model. */
  function RootWorld(origX: real, origY: real, origAngle: real, anim: BoneTransform): WorldTransform {
    WorldTransform(origX + anim.x, origY + anim.y, origAngle + anim.rotation, WorldScale(anim.scale))
  }

  /** `get_bone_world_transform` for a bone that is unknown or has no parent
      in the bone map: an unknown bone (no recorded original position) is at
      the origin with scale 1; otherwise the track, when there is one, is
      evaluated and added to the original position. */
  function RootBoneWorld(origins: map<string, (real, real, real)>, tracks: map<string, seq<BoneKeyframe>>,
                         name: string, time: real): (w: WorldTransform)
    ensures name !in origins ==> w == WorldTransform(0.0, 0.0, 0.0, 1.0)
    ensures name in origins && name !in tracks ==>
      w == WorldTransform(origins[name].0, origins[name].1, origins[name].2, 1.0)
    ensures w.scale >= 0.1
  {
    if name !in origins then WorldTransform(0.0, 0.0, 0.0, 1.0)
    else
      var anim := if name in tracks then Evaluate(tracks[name], time) else BoneTransform();
      WorldScaleRule(anim.scale);
      RootWorld(origins[name].0, origins[name].1, origins[name].2, anim)
  }

  /** A root bone without animation (an absent track, or an empty one,
      evaluates to `BoneTransform()`) stays where it was drawn, unscaled. */
  lemma RootWithoutAnimation(origX: real, origY: real, origAngle: real, time: real)
    ensures RootWorld(origX, origY, origAngle, Evaluate([], time)) == WorldTransform(origX, origY, origAngle, 1.0)
  {
  }

  /** Offsets add: evaluating a root twice with offsets that sum is the
      same as shifting the original position. */
  lemma RootWorldShift(origX: real, origY: real, origAngle: real, anim: BoneTransform, dx: real, dy: real)
    ensures RootWorld(origX + dx, origY + dy, origAngle, anim).x == RootWorld(origX, origY, origAngle, anim).x + dx
    ensures RootWorld(origX + dx, origY + dy, origAngle, anim).y == RootWorld(origX, origY, origAngle, anim).y + dy
  {
  }

  // ----- Recording of completed drags -----------------------------------------


  /** A bone drag is recorded when some channel moved by more than 0.1. */
  predicate ManipulationChanged(before: BoneTransform, after: BoneTransform) {
    Abs(before.x - after.x) > 0.1 || Abs(before.y - after.y) > 0.1
    || Abs(before.rotation - after.rotation) > 0.1 || Abs(before.scale - after.scale) > 0.1
  }

  lemma ManipulationChangedMeans(before: BoneTransform, after: BoneTransform)
    ensures !ManipulationChanged(before, after) <==>
      (Abs(before.x - after.x) <= 0.1 && Abs(before.y - after.y) <= 0.1
       && Abs(before.rotation - after.rotation) <= 0.1 && Abs(before.scale - after.scale) <= 0.1)
    ensures !ManipulationChanged(before, before)
  {
  }

  /** A keyframe drag is recorded as written: the start time must be
      truthy, so a drag that starts at time 0.0 is never recorded. */
  predicate KeyframeMoveRecorded(dragStart: Option<real>, newTime: real) {
    dragStart.Some? && dragStart.value != 0.0 && Abs(dragStart.value - newTime) > 0.01
  }

  /** The evidently intended test: a recorded start time, however small. */
  predicate KeyframeMoveRecordedFixed(dragStart: Option<real>, newTime: real) {
    dragStart.Some? && Abs(dragStart.value - newTime) > 0.01
  }

  lemma KeyframeMoveFromZeroIsLost()
    ensures !KeyframeMoveRecorded(Some(0.0), 2.0)
    ensures KeyframeMoveRecordedFixed(Some(0.0), 2.0)
  {
  }

  /** The fixed test records exactly the drags that moved the keyframe by
      more than the tolerance, from any start time. */
  lemma KeyframeMoveRecordedFixedMeans(start: real, newTime: real)
    ensures KeyframeMoveRecordedFixed(Some(start), newTime) <==> (newTime > start + 0.01 || newTime < start - 0.01)
    ensures !KeyframeMoveRecordedFixed(None, newTime)
    ensures start != 0.0 ==> (KeyframeMoveRecorded(Some(start), newTime) <==> KeyframeMoveRecordedFixed(Some(start), newTime))
  {
  }

  // ----- The project clock ------------------------------------------------------

  /** The clock fields of `BoneAnimationProject` and the editor methods that
      move them. */
  class AnimationClock {
    var currentTime: real
    var duration: real
    const fps: int
    var playing: bool

    ghost predicate Valid()
      reads this
    {
      fps > 0 && 0.0 <= currentTime && 0.0 <= duration
    }

    constructor ()
      ensures Valid()
      ensures currentTime == 0.0 && duration == 5.0 && fps == 30 && !playing
    {
      currentTime := 0.0;
      duration := 5.0;
      fps := 30;
      playing := false;
    }

    /** `update`, with the frame time `dt` in seconds. */
    method Update(dt: real)
      requires Valid() && dt >= 0.0
      modifies this`currentTime
      ensures Valid()
      ensures playing ==> currentTime == LoopAdvance(old(currentTime), dt, duration)
      ensures !playing ==> currentTime == old(currentTime)
      ensures playing && duration > 0.0 ==> currentTime < duration
    {
      if playing {
        currentTime := currentTime + dt;
        if currentTime >= duration {
          currentTime := 0.0;
        }
      }
    }

    method TogglePlayback()
      modifies this`playing
      ensures playing == !old(playing)
    {
      playing := !playing;
    }

    /** `_step_backward`. */
    method StepBackward()
      requires Valid()
      modifies this`currentTime
      ensures Valid()
      ensures currentTime == StepBackTruncated(old(currentTime), fps) as real
    {
      currentTime := MaxI(0, PyInt(currentTime - 1.0 / fps as real)) as real;
    }

    /** `_step_forward`. */
    method StepForwardOneFrame()
      requires Valid()
      modifies this`currentTime
      ensures Valid()
      ensures currentTime == StepForward(old(currentTime), fps, duration)
    {
      currentTime := MinReal(duration, currentTime + 1.0 / fps as real);
    }

    method GoToStart()
      requires Valid()
      modifies this`currentTime
      ensures Valid() && currentTime == 0.0
    {
      currentTime := 0.0;
    }

    method GoToEnd()
      requires Valid()
      modifies this`currentTime
      ensures Valid() && currentTime == duration
    {
      currentTime := duration;
    }

    /** A click or drag on the timeline at the raw time `raw`. */
    method Scrub(raw: real)
      requires Valid()
      modifies this`currentTime
      ensures Valid()
      ensures currentTime == TimelineTime(raw, duration) as real
    {
      TimelineTimeInRange(raw, duration);
      currentTime := MaxI(0, PyInt(MinReal(duration, raw))) as real;
    }
  }

  /** `clear_all_animation` of the old editor: acts only when some track
      has a keyframe, then empties every track and resets the time. */
  function ClearAllOld(tracks: map<string, seq<BoneKeyframe>>, time: real): (r: (map<string, seq<BoneKeyframe>>, real))
  {
    if exists b :: b in tracks && tracks[b] != [] then ((map b | b in tracks :: []), 0.0)
    else (tracks, time)
  }

  lemma ClearAllOldResult(tracks: map<string, seq<BoneKeyframe>>, time: real)
    ensures ClearAllOld(tracks, time).0.Keys == tracks.Keys
    ensures forall b :: b in ClearAllOld(tracks, time).0 ==> ClearAllOld(tracks, time).0[b] == []
    ensures (forall b :: b in tracks ==> tracks[b] == []) ==> ClearAllOld(tracks, time) == (tracks, time)
    ensures (exists b :: b in tracks && tracks[b] != []) ==> ClearAllOld(tracks, time).1 == 0.0
  {
    if forall b :: b in tracks ==> tracks[b] == [] {
      assert !(exists b :: b in tracks && tracks[b] != []);
    }
  }
}
