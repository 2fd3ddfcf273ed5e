/** The SDL3 runtime loader (example_loaders/sdl3/main.cpp): its own track
    evaluation (quadratic easing, no sorting, the last keyframe when no
    pair of keyframes encloses the time), playback, the per-frame
    accumulation of animated offsets into the bones' local fields, and the
    world-position pass over the bone map in storage order.

    `float` is modelled as `real`. The world fields of each bone are kept in
    the map `world` beside the bone records. */
module SdlLoader {
  import opened Types
  import opened Easing
  import opened KeyframeOrder
  import BoneTrack
  import AnimationEditor

  type World = AnimationEditor.WorldTransform

  // ----- track evaluation --------------------------------------------------

  /** The blend on the pair starting at `i`: a zero-length pair uses
      `t = 0`; the parameter is eased with the first keyframe's quadratic
      curve. */
  function SdlSegment(kfs: seq<BoneKeyframe>, i: nat, time: real): BoneTransform
    requires i + 1 < |kfs|
  {
    var kf1 := kfs[i];
    var kf2 := kfs[i + 1];
    var d := kf2.time - kf1.time;
    var t := if d > 0.0 then (time - kf1.time) / d else 0.0;
    var e := EaseQuadratic(kf1.interpolation, t);
    BoneTransform(
      Lerp(kf1.transform.x, kf2.transform.x, e),
      Lerp(kf1.transform.y, kf2.transform.y, e),
      Lerp(kf1.transform.rotation, kf2.transform.rotation, e),
      Lerp(kf1.transform.scale, kf2.transform.scale, e))
  }

  /** `PySpineAnimationTrack::get_transform_at_time`, on the keyframes in
      the order the file lists them. */
  function SdlEvaluate(kfs: seq<BoneKeyframe>, time: real): BoneTransform {
    if kfs == [] then BoneTransform()
    else if |kfs| == 1 then kfs[0].transform
    else match FirstBracket(kfs, BoneTrack.KfTime, time, 0)
      case None => kfs[|kfs| - 1].transform
      case Some(i) => SdlSegment(kfs, i, time)
  }

  /** An empty track gives the identity transform (0, 0, 0, 1); a track of
      one keyframe gives that keyframe's transform at every time; when no
      consecutive pair encloses the time the last keyframe's transform is
      returned. */
  lemma SdlEvaluateEdges(kfs: seq<BoneKeyframe>, time: real)
    ensures kfs == [] ==> SdlEvaluate(kfs, time) == BoneTransform(0.0, 0.0, 0.0, 1.0)
    ensures |kfs| == 1 ==> SdlEvaluate(kfs, time) == kfs[0].transform
    ensures |kfs| >= 2 && (forall j :: 0 <= j && j + 1 < |kfs| ==> !(kfs[j].time <= time <= kfs[j + 1].time))
      ==> SdlEvaluate(kfs, time) == kfs[|kfs| - 1].transform
  {
    if |kfs| >= 2 && (forall j :: 0 <= j && j + 1 < |kfs| ==> !(kfs[j].time <= time <= kfs[j + 1].time)) {
      assert FirstBracket(kfs, BoneTrack.KfTime, time, 0).None?;
    }
  }

  /** A time that sits on a zero-length pair (two keyframes at the same
      time) takes the first keyframe's transform: `t = 0`. */
  lemma SdlZeroLengthPair(kfs: seq<BoneKeyframe>, time: real)
    requires |kfs| >= 2
    requires FirstBracket(kfs, BoneTrack.KfTime, time, 0).Some?
    requires var i := FirstBracket(kfs, BoneTrack.KfTime, time, 0).value; kfs[i].time == kfs[i + 1].time
    ensures var i := FirstBracket(kfs, BoneTrack.KfTime, time, 0).value;
      SdlEvaluate(kfs, time) == kfs[i].transform
  {
    var i := FirstBracket(kfs, BoneTrack.KfTime, time, 0).value;
    QuadraticEndpoints(kfs[i].interpolation);
  }

  /** Inside an enclosing pair each channel lies between the two keyframes'
      values, and the pair's end points are reproduced exactly. */
  lemma SdlEvaluateInterior(kfs: seq<BoneKeyframe>, time: real)
    requires |kfs| >= 2
    requires FirstBracket(kfs, BoneTrack.KfTime, time, 0).Some?
    ensures var i := FirstBracket(kfs, BoneTrack.KfTime, time, 0).value;
      BoneTrack.TransformBetween(SdlEvaluate(kfs, time), kfs[i].transform, kfs[i + 1].transform)
    ensures var i := FirstBracket(kfs, BoneTrack.KfTime, time, 0).value;
      time == kfs[i].time ==> SdlEvaluate(kfs, time) == kfs[i].transform
  {
    var i := FirstBracket(kfs, BoneTrack.KfTime, time, 0).value;
    var d := kfs[i + 1].time - kfs[i].time;
    var t := if d > 0.0 then (time - kfs[i].time) / d else 0.0;
    if d > 0.0 {
      RatioInUnit(kfs[i].time, time, kfs[i + 1].time);
    }
    EaseQuadraticInUnit(kfs[i].interpolation, t);
    QuadraticEndpoints(kfs[i].interpolation);
    var e := EaseQuadratic(kfs[i].interpolation, t);
    var a := kfs[i].transform;
    var b := kfs[i + 1].transform;
    LerpBetween(a.x, b.x, e);
    LerpBetween(a.y, b.y, e);
    LerpBetween(a.rotation, b.rotation, e);
    LerpBetween(a.scale, b.scale, e);
  }

  /** A time before the first keyframe of a track of two or more keyframes
      in time order is enclosed by no pair, so the LAST keyframe's transform
      is returned, not the first one's. */
  lemma SdlBeforeFirstGivesLast(kfs: seq<BoneKeyframe>, time: real)
    requires |kfs| >= 2 && SortedBy(kfs, BoneTrack.KfTime)
    requires time < kfs[0].time
    ensures SdlEvaluate(kfs, time) == kfs[|kfs| - 1].transform
  {
    forall j | 0 <= j && j + 1 < |kfs|
      ensures !(kfs[j].time <= time <= kfs[j + 1].time)
    {
      assert BoneTrack.KfTime(kfs[0]) <= BoneTrack.KfTime(kfs[j]);
    }
    SdlEvaluateEdges(kfs, time);
  }

  /** A concrete track where that shows: at time 0, before keyframes at 1
      and 2, the result is the keyframe at 2. */
  lemma SdlBeforeFirstExample()
    ensures var k1 := BoneKeyframe(1.0, "b", BoneTransform(1.0, 0.0, 0.0, 1.0));
            var k2 := BoneKeyframe(2.0, "b", BoneTransform(2.0, 0.0, 0.0, 1.0));
            SdlEvaluate([k1, k2], 0.0).x == 2.0
  {
    var k1 := BoneKeyframe(1.0, "b", BoneTransform(1.0, 0.0, 0.0, 1.0));
    var k2 := BoneKeyframe(2.0, "b", BoneTransform(2.0, 0.0, 0.0, 1.0));
    SdlBeforeFirstGivesLast([k1, k2], 0.0);
  }

  /** The evaluation the pygame loader performs: a time at or before the
      first keyframe gives the first keyframe's transform. */
  function SdlEvaluateFixed(kfs: seq<BoneKeyframe>, time: real): BoneTransform {
    if kfs != [] && time < kfs[0].time then kfs[0].transform else SdlEvaluate(kfs, time)
  }

  /** On a track in time order, the corrected evaluation clamps on both
      sides: before the first keyframe it gives the first transform, after
      the last the last one, and in between it agrees with the original. */
  lemma SdlEvaluateFixedClamps(kfs: seq<BoneKeyframe>, time: real)
    requires SortedBy(kfs, BoneTrack.KfTime)
    ensures kfs != [] && time <= kfs[0].time ==> SdlEvaluateFixed(kfs, time) == kfs[0].transform
    ensures kfs != [] && time > kfs[|kfs| - 1].time ==> SdlEvaluateFixed(kfs, time) == kfs[|kfs| - 1].transform
    ensures kfs != [] && kfs[0].time <= time ==> SdlEvaluateFixed(kfs, time) == SdlEvaluate(kfs, time)
  {
    if kfs != [] && time == kfs[0].time && |kfs| >= 2 {
      var i := FirstBracket(kfs, BoneTrack.KfTime, time, 0);
      assert kfs[0].time <= time <= kfs[1].time by {
        assert BoneTrack.KfTime(kfs[0]) <= BoneTrack.KfTime(kfs[1]);
      }
      assert i == Some(0);
      SdlEvaluateInterior(kfs, time);
    }
    if kfs != [] && time > kfs[|kfs| - 1].time && |kfs| >= 2 {
      forall j | 0 <= j && j + 1 < |kfs|
        ensures !(kfs[j].time <= time <= kfs[j + 1].time)
      {
        assert BoneTrack.KfTime(kfs[j + 1]) <= BoneTrack.KfTime(kfs[|kfs| - 1]);
      }
      SdlEvaluateEdges(kfs, time);
    }
  }

  // ----- time --------------------------------------------------------------

  /** C++ `fmod(x, d)` for `x >= 0` and `d > 0`: the remainder of the
      truncated quotient, which for a non-negative `x` is the floored one. */
  function Fmod(x: real, d: real): (r: real)
    requires x >= 0.0 && d > 0.0
    ensures 0.0 <= r < d
    ensures x < d ==> r == x
  {
    PyMod(x, d)
  }

  /** The time after one playing `update(dt)`. */
  function Advance(time: real, dt: real, duration: real): (r: real)
    requires 0.0 <= time && dt >= 0.0 && duration > 0.0
    ensures 0.0 <= r <= duration
    ensures time + dt <= duration ==> r == time + dt
  {
    if time + dt > duration then Fmod(time + dt, duration) else time + dt
  }

  // ----- accumulation of animated offsets ----------------------------------

  /** One track's transform added to a bone's local fields. */
  function Shift(b: Bone, t: BoneTransform): (r: Bone)
    ensures r.x == b.x + t.x && r.y == b.y + t.y && r.angle == b.angle + t.rotation
    ensures r.(x := b.x, y := b.y, angle := b.angle) == b
  {
    b.(x := b.x + t.x, y := b.y + t.y, angle := b.angle + t.rotation)
  }

  /** The bones after the `update` loop has handled the tracks named in
      `done`: each such bone is shifted by its track's transform at
      `time`; the others are kept. */
  function AccumulateOn(bones: map<string, Bone>, tracks: map<string, seq<BoneKeyframe>>, time: real, done: set<string>): (r: map<string, Bone>)
    ensures r.Keys == bones.Keys
  {
    map k | k in bones :: if k in tracks && k in done then Shift(bones[k], SdlEvaluate(tracks[k], time)) else bones[k]
  }

  /** The bones after the whole loop. */
  function Accumulate(bones: map<string, Bone>, tracks: map<string, seq<BoneKeyframe>>, time: real): (r: map<string, Bone>)
    ensures r.Keys == bones.Keys
    ensures forall k :: k in bones && k !in tracks ==> r[k] == bones[k]
    ensures forall k :: k in bones && k in tracks ==> r[k] == Shift(bones[k], SdlEvaluate(tracks[k], time))
  {
    AccumulateOn(bones, tracks, time, tracks.Keys)
  }

  /** The world scales after the loop has handled `done`: multiplied by
      the track's scale where the bone exists. */
  /** A world transform with its scale multiplied by `f`. */
  function Scaled(w: World, f: real): (r: World)
    ensures r.scale == w.scale * f && r.(scale := w.scale) == w
  {
    w.(scale := w.scale * f)
  }

  function ScaleWorldOn(world: map<string, World>, bones: map<string, Bone>, tracks: map<string, seq<BoneKeyframe>>, time: real, done: set<string>): (r: map<string, World>)
    ensures r.Keys == world.Keys
  {
    map k | k in world :: if k in tracks && k in done && k in bones then Scaled(world[k], SdlEvaluate(tracks[k], time).scale) else world[k]
  }

  function ScaleWorld(world: map<string, World>, bones: map<string, Bone>, tracks: map<string, seq<BoneKeyframe>>, time: real): (r: map<string, World>)
    ensures r.Keys == world.Keys
    ensures forall k :: k in world && k in tracks && k in bones ==>
      r[k] == Scaled(world[k], SdlEvaluate(tracks[k], time).scale)
    ensures forall k :: k in world && !(k in tracks && k in bones) ==> r[k] == world[k]
  {
    ScaleWorldOn(world, bones, tracks, time, tracks.Keys)
  }

  /** One more track handled: its bone is shifted. */
  lemma AccumulateStep(bones: map<string, Bone>, tracks: map<string, seq<BoneKeyframe>>,
                       time: real, done: set<string>, name: string)
    requires name in tracks && name !in done
    ensures var b := AccumulateOn(bones, tracks, time, done);
      var t := SdlEvaluate(tracks[name], time);
      AccumulateOn(bones, tracks, time, done + {name}) == if name in bones then b[name := Shift(b[name], t)] else b
  {
    var b := AccumulateOn(bones, tracks, time, done);
    var b2 := AccumulateOn(bones, tracks, time, done + {name});
    if name in bones {
      var e := b[name := Shift(b[name], SdlEvaluate(tracks[name], time))];
      assert forall k :: k in b2 ==> b2[k] == e[k];
    } else {
      assert forall k :: k in b2 ==> b2[k] == b[k];
    }
  }

  /** One more track handled: its bone's world scale is multiplied. */
  lemma ScaleWorldStep(world: map<string, World>, bones: map<string, Bone>, tracks: map<string, seq<BoneKeyframe>>,
                       time: real, done: set<string>, name: string)
    requires name in tracks && name !in done && world.Keys == bones.Keys
    ensures var w := ScaleWorldOn(world, bones, tracks, time, done);
      var t := SdlEvaluate(tracks[name], time);
      ScaleWorldOn(world, bones, tracks, time, done + {name}) ==
        if name in bones then w[name := Scaled(w[name], t.scale)] else w
  {
    var w := ScaleWorldOn(world, bones, tracks, time, done);
    var w2 := ScaleWorldOn(world, bones, tracks, time, done + {name});
    if name in bones {
      var t := SdlEvaluate(tracks[name], time);
      var e := w[name := Scaled(w[name], t.scale)];
      assert w[name] == world[name];
      forall k | k in w2
        ensures w2[k] == e[k]
      {
        if k != name {
          assert w2[k] == w[k];
        }
      }
    } else {
      assert forall k :: k in w2 ==> w2[k] == w[k];
    }
  }

  /** The offsets pile up: two playing updates at the same time move a bone
      twice as far, and a scale of 2 doubles the world scale each time. */
  lemma AccumulateTwice(bones: map<string, Bone>, tracks: map<string, seq<BoneKeyframe>>, time: real, k: string)
    requires k in bones && k in tracks
    ensures var t := SdlEvaluate(tracks[k], time);
      var twice := Accumulate(Accumulate(bones, tracks, time), tracks, time)[k];
      twice.x == bones[k].x + 2.0 * t.x && twice.y == bones[k].y + 2.0 * t.y &&
      twice.angle == bones[k].angle + 2.0 * t.rotation
  {
  }

  // ----- world positions ---------------------------------------------------

  /** One iteration of `calculate_bone_world_positions`. A root (empty
      parent name) gets its local position and angle; a child whose parent
      is found is placed at the parent's start, or at its end (`endPoint`:
      the `cos`/`sin` of the parent's world rotation), plus its local
      position, with the parent's world rotation plus its angle; a child
      whose parent is not found keeps its previous world values. The world
      scale is never touched here. */
  function VisitBone(bones: map<string, Bone>, world: map<string, World>, name: string,
                     endPoint: (Bone, World) -> (real, real)): (r: map<string, World>)
    ensures r.Keys == world.Keys
    ensures forall k :: k in world && k != name ==> r[k] == world[k]
    ensures forall k :: k in world ==> r[k].scale == world[k].scale
  {
    if name !in bones || name !in world then world
    else
      var b := bones[name];
      if !IsSet(b.parent) then
        world[name := world[name].(x := b.x, y := b.y, rotation := b.angle)]
      else if b.parent.value in bones && b.parent.value in world then
        var p := world[b.parent.value];
        var attach := if b.parentAttachmentPoint == Start then (p.x, p.y) else endPoint(bones[b.parent.value], p);
        world[name := world[name].(x := attach.0 + b.x, y := attach.1 + b.y, rotation := p.rotation + b.angle)]
      else world
  }

  /** The whole pass, visiting the bones in `order` (the map's storage
      order). */
  function WorldPass(bones: map<string, Bone>, world: map<string, World>, order: seq<string>,
                     endPoint: (Bone, World) -> (real, real)): (r: map<string, World>)
    decreases |order|
    ensures r.Keys == world.Keys
  {
    if order == [] then world
    else WorldPass(bones, VisitBone(bones, world, order[0], endPoint), order[1..], endPoint)
  }

  lemma {:induction false} WorldPassSplit(bones: map<string, Bone>, world: map<string, World>, a: seq<string>, b: seq<string>,
                                          endPoint: (Bone, World) -> (real, real))
    ensures WorldPass(bones, world, a + b, endPoint) == WorldPass(bones, WorldPass(bones, world, a, endPoint), b, endPoint)
    decreases |a|
  {
    if a == [] {
      assert a + b == b;
    } else {
      assert (a + b)[0] == a[0] && (a + b)[1..] == a[1..] + b;
      WorldPassSplit(bones, VisitBone(bones, world, a[0], endPoint), a[1..], b, endPoint);
    }
  }

  /** Bones the pass does not visit keep their world values, and no world
      scale changes. */
  lemma {:induction false} WorldPassFrame(bones: map<string, Bone>, world: map<string, World>, order: seq<string>,
                                          endPoint: (Bone, World) -> (real, real), k: string)
    requires k in world
    ensures k !in order ==> WorldPass(bones, world, order, endPoint)[k] == world[k]
    ensures WorldPass(bones, world, order, endPoint)[k].scale == world[k].scale
    decreases |order|
  {
    if order != [] {
      WorldPassFrame(bones, VisitBone(bones, world, order[0], endPoint), order[1..], endPoint, k);
    }
  }

  /** A visited root ends at its local position and angle, wherever it
      comes in the order. */
  lemma {:induction false} WorldPassRoot(bones: map<string, Bone>, world: map<string, World>, order: seq<string>,
                                         endPoint: (Bone, World) -> (real, real), k: string)
    requires k in bones && k in world && !IsSet(bones[k].parent) && k in order
    ensures var w := WorldPass(bones, world, order, endPoint)[k];
      w.x == bones[k].x && w.y == bones[k].y && w.rotation == bones[k].angle && w.scale == world[k].scale
    decreases |order|
  {
    var v := VisitBone(bones, world, order[0], endPoint);
    if order[0] == k {
      if k in order[1..] {
        WorldPassRoot(bones, v, order[1..], endPoint, k);
      } else {
        WorldPassFrame(bones, v, order[1..], endPoint, k);
      }
    } else {
      WorldPassRoot(bones, v, order[1..], endPoint, k);
    }
  }

  /** A bone whose parent name is set but not found keeps its previous
      world values. */
  lemma {:induction false} WorldPassMissingParent(bones: map<string, Bone>, world: map<string, World>, order: seq<string>,
                                                  endPoint: (Bone, World) -> (real, real), k: string)
    requires k in bones && k in world && IsSet(bones[k].parent) && bones[k].parent.value !in bones
    ensures WorldPass(bones, world, order, endPoint)[k] == world[k]
    decreases |order|
  {
    if order != [] {
      WorldPassMissingParent(bones, VisitBone(bones, world, order[0], endPoint), order[1..], endPoint, k);
    }
  }

  /** A child visited for the last time after every visit of its parent
      ends where its parent's final world transform puts it: at the
      parent's start or end plus its local position, rotated by the
      parent's world rotation plus its own angle. */
  lemma WorldPassChildAfterParent(bones: map<string, Bone>, world: map<string, World>,
                                  a: seq<string>, k: string, b: seq<string>,
                                  endPoint: (Bone, World) -> (real, real))
    requires world.Keys == bones.Keys
    requires k in bones && IsSet(bones[k].parent) && bones[k].parent.value in bones
    requires bones[k].parent.value != k
    requires k !in b && bones[k].parent.value !in b
    ensures var r := WorldPass(bones, world, a + [k] + b, endPoint);
      var p := r[bones[k].parent.value];
      var attach := if bones[k].parentAttachmentPoint == Start then (p.x, p.y) else endPoint(bones[bones[k].parent.value], p);
      r[k].x == attach.0 + bones[k].x && r[k].y == attach.1 + bones[k].y &&
      r[k].rotation == p.rotation + bones[k].angle
  {
    var pn := bones[k].parent.value;
    var m := WorldPass(bones, world, a, endPoint);
    WorldPassSplit(bones, world, a + [k], b, endPoint);
    WorldPassSplit(bones, world, a, [k], endPoint);
    var v := VisitBone(bones, m, k, endPoint);
    assert WorldPass(bones, m, [k], endPoint) == v;
    WorldPassFrame(bones, v, b, endPoint, k);
    WorldPassFrame(bones, v, b, endPoint, pn);
  }

  /** Storage order matters: a child visited before its parent is placed
      from the parent's previous world transform, not the one the same
      pass gives the parent. */
  lemma ChildBeforeParentIsStale()
    ensures var bones := map["p" := Bone("p", 10.0, 0.0, 5.0, 90.0, None),
                             "c" := Bone("c", 0.0, 0.0, 5.0, 0.0, Some("p"), Start)];
            var world := map["p" := AnimationEditor.WorldTransform(0.0, 0.0, 0.0, 1.0),
                             "c" := AnimationEditor.WorldTransform(0.0, 0.0, 0.0, 1.0)];
            var ep := (b: Bone, w: World) => (w.x, w.y);
            var r := WorldPass(bones, world, ["c", "p"], ep);
            r["p"].rotation == 90.0 && r["c"].rotation == 0.0 && r["p"].x == 10.0 && r["c"].x == 0.0
  {
  }

  // ----- the loader --------------------------------------------------------

  /** A `std::map` is iterated over each of its keys exactly once. */
  predicate StorageOrder(order: seq<string>, keys: set<string>) {
    (set k | k in order) == keys
    && forall i, j :: 0 <= i < j < |order| ==> order[i] != order[j]
  }

  class Loader {
    var bones: map<string, Bone>
    /** `world_x`, `world_y`, `world_rotation`, `world_scale` of each bone. */
    var world: map<string, World>
    var tracks: map<string, seq<BoneKeyframe>>
    var duration: real
    var fps: int
    var currentTime: real
    var playing: bool
    /** The storage order of the bone map. */
    const order: seq<string>
    /** The end point of a bone given its world transform (`cos`/`sin`). */
    const endPoint: (Bone, World) -> (real, real)

    ghost predicate Valid()
      reads this
    {
      world.Keys == bones.Keys && duration > 0.0 && 0.0 <= currentTime <= duration
      && StorageOrder(order, bones.Keys)
    }

    /** The loader after loading: every bone at its local position and
        angle with world scale 1, stopped at time 0. The duration and frame
        rate are the file's, 5 seconds and 30 when it gives none. */
    constructor (loadedBones: map<string, Bone>, loadedTracks: map<string, seq<BoneKeyframe>>,
                 fileDuration: Option<real>, fileFps: Option<int>,
                 storageOrder: seq<string>, boneEnd: (Bone, World) -> (real, real))
      requires fileDuration.Some? ==> fileDuration.value > 0.0
      requires StorageOrder(storageOrder, loadedBones.Keys)
      ensures Valid()
      ensures bones == loadedBones && tracks == loadedTracks && order == storageOrder && endPoint == boneEnd
      ensures world == map k | k in loadedBones :: AnimationEditor.WorldTransform(loadedBones[k].x, loadedBones[k].y, loadedBones[k].angle, 1.0)
      ensures duration == (if fileDuration.Some? then fileDuration.value else 5.0)
      ensures fps == (if fileFps.Some? then fileFps.value else 30)
      ensures currentTime == 0.0 && !playing
    {
      bones := loadedBones;
      world := map k | k in loadedBones :: AnimationEditor.WorldTransform(loadedBones[k].x, loadedBones[k].y, loadedBones[k].angle, 1.0);
      tracks := loadedTracks;
      duration := if fileDuration.Some? then fileDuration.value else 5.0;
      fps := if fileFps.Some? then fileFps.value else 30;
      currentTime := 0.0;
      playing := false;
      order := storageOrder;
      endPoint := boneEnd;
    }

    /** The loop of `update` over the animation tracks: each track whose
        bone exists adds its transform at the current time to the bone's
        local position and angle and multiplies its world scale. */
    method ApplyTracks()
      requires world.Keys == bones.Keys
      modifies this`bones, this`world
      ensures bones == Accumulate(old(bones), tracks, currentTime)
      ensures world == ScaleWorld(old(world), old(bones), tracks, currentTime)
      ensures world.Keys == bones.Keys
    {
      var b0, w0 := bones, world;
      var b, w := b0, w0;
      var rest := tracks.Keys;
      ghost var done: set<string> := {};
      while rest != {}
        invariant rest <= tracks.Keys && done == tracks.Keys - rest
        invariant b == AccumulateOn(b0, tracks, currentTime, done)
        invariant w == ScaleWorldOn(w0, b0, tracks, currentTime, done)
        decreases |rest|
      {
        var name :| name in rest;
        AccumulateStep(b0, tracks, currentTime, done, name);
        ScaleWorldStep(w0, b0, tracks, currentTime, done, name);
        if name in b {
          var t := SdlEvaluate(tracks[name], currentTime);
          b := b[name := Shift(b[name], t)];
          w := w[name := Scaled(w[name], t.scale)];
        }
        rest := rest - {name};
        done := done + {name};
      }
      assert done == tracks.Keys;
      bones, world := b, w;
    }

    /** `calculate_bone_world_positions`, visiting the bones in storage
        order. */
    method CalculateWorld()
      requires world.Keys == bones.Keys
      modifies this`world
      ensures world == WorldPass(bones, old(world), order, endPoint)
    {
      var i := 0;
      while i < |order|
        invariant 0 <= i <= |order|
        invariant WorldPass(bones, world, order[i..], endPoint) == WorldPass(bones, old(world), order, endPoint)
      {
        assert order[i..][0] == order[i] && order[i..][1..] == order[i + 1..];
        world := VisitBone(bones, world, order[i], endPoint);
        i := i + 1;
      }
    }

    /** `update(dt)`: nothing while paused; while playing, time advances and
        wraps with `fmod` once past the duration, the tracks are added into
        the bones and the world positions are recomputed. */
    method Update(dt: real)
      requires Valid() && dt >= 0.0
      modifies this`currentTime, this`bones, this`world
      ensures Valid()
      ensures !old(playing) ==> currentTime == old(currentTime) && bones == old(bones) && world == old(world)
      ensures old(playing) ==> currentTime == Advance(old(currentTime), dt, duration)
      ensures old(playing) ==> bones == Accumulate(old(bones), tracks, currentTime)
      ensures old(playing) ==>
        world == WorldPass(bones, ScaleWorld(old(world), old(bones), tracks, currentTime), order, endPoint)
    {
      if !playing {
        return;
      }
      currentTime := Advance(currentTime, dt, duration);
      ApplyTracks();
      CalculateWorld();
    }

    /** `play`. */
    method Play()
      modifies this`playing
      ensures playing
    {
      playing := true;
    }

    /** `pause`. */
    method Pause()
      modifies this`playing
      ensures !playing
    {
      playing := false;
    }

    /** `stop`: stopped and back at the start. */
    method Stop()
      requires Valid()
      modifies this`playing, this`currentTime
      ensures Valid() && !playing && currentTime == 0.0
    {
      playing := false;
      currentTime := 0.0;
    }

    /** `set_time`: the time clamped to [0, duration], not truncated. */
    method SetTime(time: real)
      requires Valid()
      modifies this`currentTime
      ensures Valid()
      ensures currentTime == AnimationEditor.ClampTime(time, duration)
    {
      AnimationEditor.ClampTimeInRange(time, duration);
      currentTime := AnimationEditor.ClampTime(time, duration);
    }
  }
}
