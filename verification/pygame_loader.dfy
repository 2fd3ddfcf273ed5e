/** The pygame runtime loader (example_loaders/pygame/example_pygame_loader.py):
    playback of a loaded animation and the per-frame pass that computes
    every bone's world transform, parents before children.

    A loaded track is its keyframes sorted by time; it is evaluated exactly
    as the editor's bone track evaluates (`BoneTrack.Evaluate`, cubic
    easing). The world fields of each bone (`world_x`, `world_y`,
    `world_rotation`, `world_scale`) are kept in the map `world` beside the
    bone records, which the pass never changes. */
module PygameLoader {
  import opened Types
  import opened KeyframeOrder
  import BoneTrack
  import AnimationEditor
  import opened BoneHierarchy

  type World = AnimationEditor.WorldTransform

  /** A freshly loaded bone sits at its own position and angle, scale 1. */
  function InitialWorld(b: Bone): (w: World)
    ensures w.x == b.x && w.y == b.y && w.rotation == b.angle && w.scale == 1.0
  {
    AnimationEditor.WorldTransform(b.x, b.y, b.angle, 1.0)
  }

  /** `PySpineAnimationTrack.__init__`: the keyframes sorted by time
      (`list.sort` is stable). */
  function LoadTrack(data: seq<BoneKeyframe>): (r: seq<BoneKeyframe>)
    ensures SortedBy(r, BoneTrack.KfTime)
    ensures multiset(r) == multiset(data)
  {
    SortBySorted(data, BoneTrack.KfTime);
    SortBy(data, BoneTrack.KfTime)
  }

  /** Loading a track that is already in time order keeps it as it is. */
  lemma LoadSortedTrack(data: seq<BoneKeyframe>)
    requires SortedBy(data, BoneTrack.KfTime)
    ensures LoadTrack(data) == data
  {
    SortByIdentityOnSorted(data, BoneTrack.KfTime);
  }

  /** The bone's parent, when it names a bone of the map: only then is the
      bone placed relative to it (`bone.parent and bone.parent in self.bones`). */
  predicate HasParentIn(bones: map<string, Bone>, k: string)
    requires k in bones
  {
    IsSet(bones[k].parent) && bones[k].parent.value in bones
  }

  /** Two bones that name each other as parent are never grounded: this is
      the cycle on which `process_bone` recurses without end. */
  lemma MutualParentsNotGrounded(bones: map<string, Bone>, a: string, b: string, n: nat)
    requires a in bones && b in bones && bones[a].parent == Some(b) && bones[b].parent == Some(a)
    requires a != "" && b != ""
    ensures !Grounded(bones, a, n)
  {
    if Grounded(bones, a, n) {
      assert Ancestor(bones, a, b, 1);
      GroundedNoCycle(bones, a, 1, n);
    }
  }

  /** In `log`, every bone comes after its parent, unless the parent was
      processed before the log started. */
  ghost predicate ParentsFirst(bones: map<string, Bone>, before: set<string>, log: seq<string>)
    requires forall i :: 0 <= i < |log| ==> log[i] in bones
  {
    forall i :: 0 <= i < |log| && HasParentIn(bones, log[i]) ==>
      bones[log[i]].parent.value in before || bones[log[i]].parent.value in log[..i]
  }

  /** Every bone is processed at most once. */
  ghost predicate Distinct(log: seq<string>) {
    forall i, j :: 0 <= i < j < |log| ==> log[i] != log[j]
  }

  /** Appending the bones one `process_bone` call placed, none of them
      placed before and each after its parent, keeps the log free of
      repeats, parents first and in step with the processed set. */
  lemma LogStep(bones: map<string, Bone>, log: seq<string>, more: seq<string>, processed: set<string>, done: set<string>)
    requires forall i :: 0 <= i < |log| ==> log[i] in bones
    requires forall i :: 0 <= i < |more| ==> more[i] in bones && more[i] !in processed
    requires Distinct(log) && Distinct(more)
    requires ParentsFirst(bones, {}, log) && ParentsFirst(bones, processed, more)
    requires forall x :: x in processed <==> x in log
    requires forall x :: x in done <==> x in processed || x in more
    ensures forall i :: 0 <= i < |log + more| ==> (log + more)[i] in bones
    ensures Distinct(log + more) && ParentsFirst(bones, {}, log + more)
    ensures forall x :: x in done <==> x in log + more
  {
    assert processed == {} + (set x | x in log);
    ParentsFirstAppend(bones, {}, log, more);
    forall i, j | 0 <= i < j < |log + more|
      ensures (log + more)[i] != (log + more)[j]
    {
      if i < |log| && j >= |log| {
        assert (log + more)[j] == more[j - |log|];
        assert (log + more)[i] in processed;
      }
    }
  }


  lemma ParentsFirstAppend(bones: map<string, Bone>, before: set<string>, a: seq<string>, b: seq<string>)
    requires forall i :: 0 <= i < |a| ==> a[i] in bones
    requires forall i :: 0 <= i < |b| ==> b[i] in bones
    requires ParentsFirst(bones, before, a)
    requires ParentsFirst(bones, before + (set x | x in a), b)
    ensures ParentsFirst(bones, before, a + b)
  {
    var ab := a + b;
    forall i | 0 <= i < |ab| && HasParentIn(bones, ab[i])
      ensures bones[ab[i]].parent.value in before || bones[ab[i]].parent.value in ab[..i]
    {
      var p := bones[ab[i]].parent.value;
      if i < |a| {
        assert ab[i] == a[i] && ab[..i] == a[..i];
      } else {
        assert ab[i] == b[i - |a|];
        assert ab[..i] == a + b[..i - |a|];
        if p in b[..i - |a|] {
          assert p in ab[..i];
        } else if p in a {
          assert p in ab[..i];
        }
      }
    }
  }

  lemma ParentsFirstSnoc(bones: map<string, Bone>, before: set<string>, log: seq<string>, name: string)
    requires forall i :: 0 <= i < |log| ==> log[i] in bones
    requires name in bones && ParentsFirst(bones, before, log)
    requires HasParentIn(bones, name) ==> bones[name].parent.value in before || bones[name].parent.value in log
    ensures ParentsFirst(bones, before, log + [name])
  {
    var r := log + [name];
    forall i | 0 <= i < |r| && HasParentIn(bones, r[i])
      ensures bones[r[i]].parent.value in before || bones[r[i]].parent.value in r[..i]
    {
      if i < |log| {
        assert r[..i] == log[..i];
      } else {
        assert r[..i] == log;
      }
    }
  }

  /** The log of `process_bone(name)`: the log of its parent's call, then
      `name` itself. */
  lemma ExtendLog(bones: map<string, Bone>, processed: set<string>, log: seq<string>, name: string, n: nat)
    requires name in bones && name !in processed && name !in log
    requires forall i :: 0 <= i < |log| ==> log[i] in bones && log[i] !in processed
    requires log != [] ==> IsSet(bones[name].parent) && n > 0
    requires log != [] ==> forall i :: 0 <= i < |log| ==> Ancestor(bones, log[i], bones[name].parent.value, n - 1)
    requires Distinct(log) && ParentsFirst(bones, processed, log)
    requires HasParentIn(bones, name) ==> bones[name].parent.value in processed || bones[name].parent.value in log
    ensures forall i :: 0 <= i < |log + [name]| ==> (log + [name])[i] in bones && (log + [name])[i] !in processed
    ensures forall i :: 0 <= i < |log + [name]| ==> Ancestor(bones, (log + [name])[i], name, n)
    ensures Distinct(log + [name]) && ParentsFirst(bones, processed, log + [name])
  {
    ParentsFirstSnoc(bones, processed, log, name);
  }

  class Loader {
    var bones: map<string, Bone>
    /** `world_x`, `world_y`, `world_rotation`, `world_scale` of each bone. */
    var world: map<string, World>
    var tracks: map<string, seq<BoneKeyframe>>
    var originals: map<string, (real, real, real)>
    var duration: real
    const fps: int
    var currentTime: real
    var playing: bool
    /** Where a child bone is placed given its parent's world transform, the
        child and its animated offset: the parent's start or end point
        (`cos`/`sin` of the parent's world rotation) plus the offset rotated
        by that rotation. The trigonometry is a parameter of the model. */
    const place: (Bone, World, Bone, BoneTransform) -> (real, real)

    ghost predicate Valid()
      reads this
    {
      world.Keys == bones.Keys && duration > 0.0 &&
      0.0 <= currentTime <= duration &&
      (forall k :: k in tracks ==> SortedBy(tracks[k], BoneTrack.KfTime))
    }

    /** The loader after `load_bone_project`/`load_attachment_config` and
        `load_animation`: stopped at 0, every bone at its loaded position
        and every track sorted. The duration and frame rate are the file's,
        5 seconds and 30 when it gives none. */
    constructor (loadedBones: map<string, Bone>, trackData: map<string, seq<BoneKeyframe>>,
                 loadedOriginals: map<string, (real, real, real)>,
                 fileDuration: Option<real>, fileFps: Option<int>,
                 placeChild: (Bone, World, Bone, BoneTransform) -> (real, real))
      requires fileDuration.Some? ==> fileDuration.value > 0.0
      ensures Valid()
      ensures bones == loadedBones && originals == loadedOriginals && place == placeChild
      ensures world == map k | k in loadedBones :: InitialWorld(loadedBones[k])
      ensures tracks == map k | k in trackData :: LoadTrack(trackData[k])
      ensures duration == (if fileDuration.Some? then fileDuration.value else 5.0)
      ensures fps == (if fileFps.Some? then fileFps.value else 30)
      ensures currentTime == 0.0 && !playing
    {
      bones := loadedBones;
      world := map k | k in loadedBones :: InitialWorld(loadedBones[k]);
      tracks := map k | k in trackData :: LoadTrack(trackData[k]);
      originals := loadedOriginals;
      duration := if fileDuration.Some? then fileDuration.value else 5.0;
      fps := if fileFps.Some? then fileFps.value else 30;
      currentTime := 0.0;
      playing := false;
      place := placeChild;
    }

    /** The animated offset of bone `k` at the current time: its track's
        transform, or the identity transform when it has no track. */
    function Anim(k: string): BoneTransform
      reads this
    {
      if k in tracks then BoneTrack.Evaluate(tracks[k], currentTime) else BoneTransform()
    }

    /** The original position and angle of bone `k`: the recorded one, or
        the bone's own. */
    function Original(k: string): (real, real, real)
      reads this
      requires k in bones
    {
      if k in originals then originals[k] else (bones[k].x, bones[k].y, bones[k].angle)
    }

    /** Bone `k`'s world transform is the one `process_bone` gives it: a
        child is placed from its parent's world transform, a root at its
        original position plus the animated offset; either way the world
        rotation is the original angle plus the animated rotation (the
        parent's rotation is not added) and the scale obeys
        `AnimationEditor.WorldScale`. */
    ghost predicate Placed(k: string)
      reads this
      requires world.Keys == bones.Keys
    {
      k in bones &&
      var a := Anim(k);
      var o := Original(k);
      var w := world[k];
      w.rotation == o.2 + a.rotation && w.scale == AnimationEditor.WorldScale(a.scale) &&
      if HasParentIn(bones, k) then
        var p := bones[k].parent.value;
        (w.x, w.y) == place(bones[p], world[p], bones[k], a)
      else
        w.x == o.0 + a.x && w.y == o.1 + a.y
    }

    /** `processed` holds bones only, each placed, each with its parent (when
        that is a bone) processed too. */
    ghost predicate Finished(processed: set<string>)
      reads this
      requires world.Keys == bones.Keys
    {
      processed <= bones.Keys &&
      (forall k :: k in processed ==> Placed(k)) &&
      (forall k :: k in processed && HasParentIn(bones, k) ==> bones[k].parent.value in processed)
    }

    /** The nested `process_bone`: finalises `name` after its parent chain.
        `log` lists the bones it finalised, in order. */
    method ProcessBone(name: string, processed: set<string>, ghost n: nat) returns (done: set<string>, ghost log: seq<string>)
      requires world.Keys == bones.Keys && Finished(processed)
      requires Grounded(bones, name, n)
      modifies this`world
      decreases n
      ensures world.Keys == bones.Keys && Finished(done)
      ensures name in bones ==> name in done
      ensures forall x :: x in done <==> x in processed || x in log
      ensures forall i :: 0 <= i < |log| ==> log[i] in bones && log[i] !in processed
      ensures forall i :: 0 <= i < |log| ==> Ancestor(bones, log[i], name, n)
      ensures Distinct(log) && ParentsFirst(bones, processed, log)
    {
      if name in processed || name !in bones {
        return processed, [];
      }
      var b := bones[name];
      done, log := processed, [];
      if IsSet(b.parent) && b.parent.value !in processed {
        done, log := ProcessBone(b.parent.value, processed, n - 1);
        if name in log {
          GroundedNoCycle(bones, name, n - 1, n);
        }
      }
      PlaceBone(name, done);
      ExtendLog(bones, processed, log, name, n);
      log := log + [name];
      done := done + {name};
    }

    /** The body of `process_bone` once the parent is done: computes and
        stores the world transform of `name`; nothing else changes. */
    method PlaceBone(name: string, ghost done: set<string>)
      requires world.Keys == bones.Keys && Finished(done)
      requires name in bones && name !in done
      requires HasParentIn(bones, name) ==> bones[name].parent.value in done
      modifies this`world
      ensures world.Keys == bones.Keys && Finished(done + {name})
      ensures forall k :: k in bones && k != name ==> world[k] == old(world)[k]
    {
      ghost var mid := world;
      var b := bones[name];
      var o := Original(name);
      var a := Anim(name);
      var w: World;
      if IsSet(b.parent) && b.parent.value in bones {
        var p := b.parent.value;
        var xy := place(bones[p], world[p], b, a);
        w := AnimationEditor.WorldTransform(xy.0, xy.1, o.2 + a.rotation, AnimationEditor.WorldScale(a.scale));
      } else {
        w := AnimationEditor.WorldTransform(o.0 + a.x, o.1 + a.y, o.2 + a.rotation, AnimationEditor.WorldScale(a.scale));
      }
      world := world[name := w];
      assert Placed(name);
      forall k | k in done
        ensures Placed(k)
      {
        assert world[k] == mid[k];
        if HasParentIn(bones, k) {
          assert world[bones[k].parent.value] == mid[bones[k].parent.value];
        }
      }
    }

    /** `_update_bone_transforms`: `process_bone` on every bone. When no
        parent chain loops, every bone ends up placed, each exactly once and
        after its parent, and the bone records are untouched. */
    method UpdateBoneTransforms(ghost n: nat) returns (ghost log: seq<string>)
      requires world.Keys == bones.Keys
      requires forall k :: k in bones ==> Grounded(bones, k, n)
      modifies this`world
      ensures world.Keys == bones.Keys
      ensures forall k :: k in bones ==> Placed(k)
      ensures forall k :: k in bones <==> k in log
      ensures Distinct(log)
      ensures forall i :: 0 <= i < |log| ==> log[i] in bones
      ensures ParentsFirst(bones, {}, log)
    {
      var processed: set<string> := {};
      var rest := bones.Keys;
      log := [];
      while rest != {}
        invariant world.Keys == bones.Keys && Finished(processed)
        invariant rest <= bones.Keys
        invariant forall k :: k in bones && k !in rest ==> k in processed
        invariant forall x :: x in processed <==> x in log
        invariant forall i :: 0 <= i < |log| ==> log[i] in bones
        invariant Distinct(log) && ParentsFirst(bones, {}, log)
        decreases |rest|
      {
        var k :| k in rest;
        var done, more := ProcessBone(k, processed, n);
        LogStep(bones, log, more, processed, done);
        log := log + more;
        processed := done;
        rest := rest - {k};
      }
    }

    /** `update(dt)`: while playing, time advances by `dt` and restarts at 0
        once it reaches the duration; then every bone is placed again. */
    method Update(dt: real, ghost n: nat)
      requires Valid() && dt >= 0.0
      requires forall k :: k in bones ==> Grounded(bones, k, n)
      modifies this`currentTime, this`world
      ensures Valid()
      ensures currentTime == (if !old(playing) then old(currentTime)
                              else if old(currentTime) + dt >= duration then 0.0
                              else old(currentTime) + dt)
      ensures forall k :: k in bones ==> Placed(k)
    {
      if playing {
        currentTime := currentTime + dt;
        if currentTime >= duration {
          currentTime := 0.0;
        }
      }
      var _ := UpdateBoneTransforms(n);
    }

    /** `play`. */
    method Play()
      modifies this`playing
      ensures playing
    {
      playing := true;
    }

    /** `pause`. */
    method Pause()
      modifies this`playing
      ensures !playing
    {
      playing := false;
    }

    /** `stop`: stopped and back at the start. */
    method Stop()
      requires Valid()
      modifies this`playing, this`currentTime
      ensures Valid() && !playing && currentTime == 0.0
    {
      playing := false;
      currentTime := 0.0;
    }

    /** `set_time`: the time clamped to the animation and truncated to a
        whole second, as the editor's timeline does. */
    method SetTime(time: real)
      requires Valid()
      modifies this`currentTime
      ensures Valid()
      ensures currentTime == AnimationEditor.TimelineTime(time, duration) as real
    {
      AnimationEditor.TimelineTimeInRange(time, duration);
      currentTime := AnimationEditor.TimelineTime(time, duration) as real;
    }
  }
}
