/** Easing curves and the per-channel linear interpolation used by every
    keyframe evaluator in PySpine.

    * Cubic family (the pygame editors and the pygame loader):
      EASE_IN t^3, EASE_OUT 1-(1-t)^3, EASE_IN_OUT 4t^3 below 0.5 and
      1-(-2t+2)^3/2 from 0.5, BEZIER t^2(3-2t) (smoothstep).
    * Quadratic family (the SDL3 loader): EASE_IN t^2, EASE_OUT 1-(1-t)^2,
      EASE_IN_OUT 2t^2 below 0.5 and the same cubic upper half, BEZIER
      smoothstep.
    All of them fix 0 and 1 and keep [0,1] inside [0,1], so an eased
    interpolation never leaves the interval spanned by its two keyframes. */
module Easing {
  import opened Types

  function Cube(t: real): real { t * t * t }

  function CubicIn(t: real): real { Cube(t) }
  function CubicOut(t: real): real { 1.0 - Cube(1.0 - t) }
  function CubicInOut(t: real): real {
    if t < 0.5 then 4.0 * Cube(t) else 1.0 - Cube(-2.0 * t + 2.0) / 2.0
  }
  function Smoothstep(t: real): real { t * t * (3.0 - 2.0 * t) }

  function QuadIn(t: real): real { t * t }
  function QuadOut(t: real): real { 1.0 - (1.0 - t) * (1.0 - t) }
  function QuadInOut(t: real): real {
    if t < 0.5 then 2.0 * t * t else 1.0 - Cube(-2.0 * t + 2.0) / 2.0
  }

  /** `_interpolate_transforms` easing (PySpine_AnimationEditor.py,
      old_pyspine/animation_editor.py, the pygame loader). LINEAR leaves t. */
  function EaseCubic(kind: InterpolationType, t: real): real {
    match kind
    case Linear => t
    case EaseIn => CubicIn(t)
    case EaseOut => CubicOut(t)
    case EaseInOut => CubicInOut(t)
    case Bezier => Smoothstep(t)
  }

  /** The easing switch of the SDL3 loader's `get_transform_at_time`. */
  function EaseQuadratic(kind: InterpolationType, t: real): real {
    match kind
    case Linear => t
    case EaseIn => QuadIn(t)
    case EaseOut => QuadOut(t)
    case EaseInOut => QuadInOut(t)
    case Bezier => Smoothstep(t)
  }

  /** `a + (b - a) * t`, the per-channel blend. */
  function Lerp(a: real, b: real, t: real): real { a + (b - a) * t }

  predicate InUnit(t: real) { 0.0 <= t <= 1.0 }

  lemma UnitProduct(a: real, b: real)
    requires InUnit(a) && InUnit(b)
    ensures InUnit(a * b) && a * b <= a && a * b <= b
  {
    assert a * b <= a * 1.0;
    assert a * b <= 1.0 * b;
  }

  lemma CubeInUnit(t: real)
    requires InUnit(t)
    ensures InUnit(Cube(t))
  {
    UnitProduct(t, t);
    UnitProduct(t * t, t);
  }

  lemma CubeBelowHalf(t: real)
    requires 0.0 <= t < 0.5
    ensures 0.0 <= 4.0 * Cube(t) <= 0.5
  {
    var h := 2.0 * t;
    assert InUnit(h);
    CubeInUnit(h);
    assert Cube(h) == 8.0 * Cube(t);
  }

  /** Every cubic-family easing keeps [0,1] inside [0,1]. */
  lemma EaseCubicInUnit(kind: InterpolationType, t: real)
    requires InUnit(t)
    ensures InUnit(EaseCubic(kind, t))
  {
    match kind
    case Linear =>
    case EaseIn => CubeInUnit(t);
    case EaseOut => CubeInUnit(1.0 - t);
    case EaseInOut =>
      if t < 0.5 {
        CubeBelowHalf(t);
      } else {
        CubeInUnit(-2.0 * t + 2.0);
      }
    case Bezier =>
      UnitProduct(t, t);
      SmoothstepInUnit(t);
  }

  lemma SmoothstepInUnit(t: real)
    requires InUnit(t)
    ensures InUnit(Smoothstep(t))
  {
    var s := t * t;
    UnitProduct(t, t);
    var u := 1.0 - t;
    assert 3.0 - 2.0 * t == 1.0 + 2.0 * u;
    // s * (1 + 2u) <= 1  because  s = (1 - u)^2  and  (1 - u)^2 (1 + 2u) = 1 - 3u^2 + 2u^3 = 1 - u^2 (3 - 2u)
    assert s == 1.0 - 2.0 * u + u * u;
    UnitProduct(u, u);
    var w := u * u;
    assert s * (1.0 + 2.0 * u) == 1.0 - 3.0 * w + 2.0 * w * u;
    assert w * u <= w;
  }

  /** Every quadratic-family easing keeps [0,1] inside [0,1]. */
  lemma EaseQuadraticInUnit(kind: InterpolationType, t: real)
    requires InUnit(t)
    ensures InUnit(EaseQuadratic(kind, t))
  {
    match kind
    case Linear =>
    case EaseIn => UnitProduct(t, t);
    case EaseOut => UnitProduct(1.0 - t, 1.0 - t);
    case EaseInOut =>
      if t < 0.5 {
        UnitProduct(2.0 * t, 2.0 * t);
        assert 2.0 * t * t == (2.0 * t) * (2.0 * t) / 2.0;
      } else {
        CubeInUnit(-2.0 * t + 2.0);
      }
    case Bezier => SmoothstepInUnit(t);
  }

  /** All easings map 0 to 0 and 1 to 1, so a blend starts exactly at the
      first keyframe and ends exactly at the second. */
  lemma CubicEndpoints(kind: InterpolationType)
    ensures EaseCubic(kind, 0.0) == 0.0 && EaseCubic(kind, 1.0) == 1.0
  {
  }

  lemma QuadraticEndpoints(kind: InterpolationType)
    ensures EaseQuadratic(kind, 0.0) == 0.0 && EaseQuadratic(kind, 1.0) == 1.0
  {
  }

  /** The SDL3 quadratic EASE_IN differs from the cubic one at the midpoint. */
  lemma QuadraticDiffersFromCubic()
    ensures EaseQuadratic(EaseIn, 0.5) == 0.25 && EaseCubic(EaseIn, 0.5) == 0.125
    ensures EaseQuadratic(EaseOut, 0.5) == 0.75 && EaseCubic(EaseOut, 0.5) == 0.875
  {
  }

  lemma ScaledBetween(d: real, t: real)
    requires d >= 0.0 && InUnit(t)
    ensures 0.0 <= d * t <= d
  {
    assert d * (1.0 - t) >= 0.0;
  }

  lemma LerpUp(a: real, b: real, t: real)
    requires InUnit(t) && a <= b
    ensures a <= Lerp(a, b, t) <= b
  {
    var d := b - a;
    ScaledBetween(d, t);
    var p := d * t;
    assert 0.0 <= p <= d;
    assert Lerp(a, b, t) == a + p;
  }

  lemma LerpDown(a: real, b: real, t: real)
    requires InUnit(t) && a > b
    ensures b <= Lerp(a, b, t) <= a
  {
    var d := a - b;
    ScaledBetween(d, t);
    var p := d * t;
    assert 0.0 <= p <= d;
    assert (b - a) * t == -p;
    assert Lerp(a, b, t) == a - p;
  }

  lemma LerpEnds(a: real, b: real)
    ensures Lerp(a, b, 0.0) == a && Lerp(a, b, 1.0) == b
  {
  }

  /** A blend with a factor in [0,1] lies between its two ends. */
  lemma LerpBetween(a: real, b: real, t: real)
    requires InUnit(t)
    ensures MinReal(a, b) <= Lerp(a, b, t) <= MaxReal(a, b)
    ensures Lerp(a, b, 0.0) == a && Lerp(a, b, 1.0) == b
  {
    LerpEnds(a, b);
    if a <= b {
      LerpUp(a, b, t);
    } else {
      LerpDown(a, b, t);
    }
  }
  /** The segment parameter `(time - t1) / (t2 - t1)` of a bracketing pair
      lies in [0,1]. */
  lemma RatioInUnit(t1: real, time: real, t2: real)
    requires t1 <= time <= t2 && t1 < t2
    ensures InUnit((time - t1) / (t2 - t1))
  {
    var d := t2 - t1;
    var x := time - t1;
    var q := x / d;
    assert q * d == x;
  }
}
