/** Record types and enumerations shared by the PySpine editors
    (pyspine/data_classes.py), together with a few sequence helpers that
    mirror Python list operations used throughout the editors. */
module Types {

  datatype Option<T> = None | Some(value: T)

  /** Python treats both `None` and `""` as "no parent". */
  predicate IsSet(p: Option<string>) {
    p.Some? && p.value != ""
  }

  datatype InterpolationType = Linear | EaseIn | EaseOut | EaseInOut | Bezier

  datatype BoneLayer = Behind | Middle | Front

  datatype ResizeHandle =
    | NoHandle | TopLeft | TopRight | BottomLeft | BottomRight | Top | Bottom | Left | Right

  datatype AttachmentPoint = Start | End

  /** BEHIND -> MIDDLE -> FRONT -> BEHIND. */
  function NextLayer(l: BoneLayer): (r: BoneLayer)
    ensures r != l
  {
    match l
    case Behind => Middle
    case Middle => Front
    case Front => Behind
  }

  /** Cycling three times returns to the start, and every layer is reached. */
  lemma NextLayerPeriod(l: BoneLayer)
    ensures NextLayer(NextLayer(NextLayer(l))) == l
    ensures NextLayer(NextLayer(l)) != l
    ensures {l, NextLayer(l), NextLayer(NextLayer(l))} == {Behind, Middle, Front}
  {
  }

  /** A rectangle cut out of the sprite sheet; origin is relative (0..1). */
  datatype SpriteRect = SpriteRect(
    name: string, x: int, y: int, width: int, height: int,
    originX: real := 0.5, originY: real := 0.5)

  /** A sprite placed on a bone. */
  datatype SpriteInstance = SpriteInstance(
    id: string, spriteName: string,
    boneName: Option<string> := None,
    offsetX: real := 0.0, offsetY: real := 0.0, offsetRotation: real := 0.0,
    scale: real := 1.0,
    boneAttachmentPoint: AttachmentPoint := Start)

  /** A bone; `children` starts empty when omitted (the `__post_init__` rule). */
  datatype Bone = Bone(
    name: string, x: real, y: real, length: real,
    angle: real := 0.0,
    parent: Option<string> := None,
    parentAttachmentPoint: AttachmentPoint := End,
    children: seq<string> := [],
    layer: BoneLayer := Middle,
    layerOrder: int := 0)

  /** A bone dictionary keyed by bone name. */
  type Bones = map<string, Bone>

  datatype BoneTransform = BoneTransform(
    x: real := 0.0, y: real := 0.0, rotation: real := 0.0, scale: real := 1.0)

  datatype BoneKeyframe = BoneKeyframe(
    time: real, boneName: string, transform: BoneTransform,
    interpolation: InterpolationType := Linear,
    spriteInstanceId: Option<string> := None)

  /** Python `int(x)` on a float: truncation toward zero. */
  function PyInt(x: real): (n: int)
    ensures x >= 0.0 ==> 0 <= n && n as real <= x < n as real + 1.0
    ensures x < 0.0 ==> n <= 0 && x <= n as real < x + 1.0
  {
    if x >= 0.0 then x.Floor else -((-x).Floor)
  }

  function Abs(x: real): real { if x < 0.0 then -x else x }
  function MaxI(a: int, b: int): int { if a >= b then a else b }
  function MaxReal(a: real, b: real): real { if a >= b then a else b }
  function MinReal(a: real, b: real): real { if a <= b then a else b }

  /** Python's `x % d` on floats for a positive divisor: the remainder of
      the floored quotient, so it lies in [0, d) and differs from `x` by a
      whole multiple of `d`. */
  function PyMod(x: real, d: real): (r: real)
    requires d > 0.0
    ensures 0.0 <= r < d
    ensures 0.0 <= x < d ==> r == x
    ensures x - r == (x / d).Floor as real * d
  {
    FloorQuotient(x, d);
    x - (x / d).Floor as real * d
  }

  /** The floored quotient times `d` lies in (x - d, x], and it is 0 for
      `0 <= x < d`. */
  lemma FloorQuotient(x: real, d: real)
    requires d > 0.0
    ensures var q := (x / d).Floor as real; q * d <= x < q * d + d
    ensures 0.0 <= x < d ==> (x / d).Floor == 0
  {
    var r := x / d;
    var q := r.Floor as real;
    assert q <= r < q + 1.0;
    assert r * d == x;
    ScaleMono(q, r, d);
    ScaleMono(r, q + 1.0, d);
    assert r * d < (q + 1.0) * d;
    assert (q + 1.0) * d == q * d + d;
    assert x < q * d + d;
    if 0.0 <= x < d {
      assert 0.0 <= r by {
        if r < 0.0 {
          ScaleMono(r, 0.0, d);
        }
      }
      assert r < 1.0 by {
        if r >= 1.0 {
          ScaleMono(1.0, r, d);
        }
      }
      assert r.Floor == 0;
    }
  }

  /** Multiplying by a positive number keeps the order of reals. */
  lemma ScaleMono(a: real, b: real, d: real)
    requires a <= b && d > 0.0
    ensures a * d <= b * d
    ensures a < b ==> a * d < b * d
  {
  }

  // ----- Python list helpers ------------------------------------------------

  /** `list.remove(x)` when `x in list`: drops the first occurrence only;
      callers in the source always test membership first. */
  function RemoveFirst<T(==)>(s: seq<T>, x: T): (r: seq<T>)
    ensures x !in s ==> r == s
    ensures x in s ==> |r| == |s| - 1
    ensures multiset(r) == multiset(s) - multiset{x}
  {
    if s == [] then []
    else
      assert s == [s[0]] + s[1..];
      if s[0] == x then s[1..] else [s[0]] + RemoveFirst(s[1..], x)
  }

  /** The "append if absent" idiom. */
  function AppendOnce<T(==)>(s: seq<T>, x: T): (r: seq<T>)
    ensures x in r
    ensures forall j :: 0 <= j < |s| ==> s[j] in r
    ensures forall j :: 0 <= j < |r| ==> r[j] in s || r[j] == x
    ensures x in s ==> r == s
    ensures x !in s ==> |r| == |s| + 1
  {
    if x in s then s else s + [x]
  }

  /** `x` occurs at most once in `s`. */
  ghost predicate NoDup(s: seq<string>) {
    forall x :: multiset(s)[x] <= 1
  }

  lemma AppendOnceNoDup(s: seq<string>, x: string)
    requires NoDup(s)
    ensures NoDup(AppendOnce(s, x))
    ensures multiset(AppendOnce(s, x))[x] == 1
  {
    if x !in s {
      assert multiset(s + [x]) == multiset(s) + multiset{x};
    }
  }

  lemma AppendOnceMembers(s: seq<string>, x: string)
    ensures forall y :: y in AppendOnce(s, x) <==> y in s || y == x
  {
  }

  lemma RemoveFirstNoDup(s: seq<string>, x: string)
    requires NoDup(s)
    ensures NoDup(RemoveFirst(s, x)) && x !in RemoveFirst(s, x)
    ensures forall y :: y in RemoveFirst(s, x) <==> y in s && y != x
  {
    var r := RemoveFirst(s, x);
    assert multiset(r)[x] == 0;
    forall y | y != x
      ensures y in r <==> y in s
    {
      assert multiset(r)[y] == multiset(s)[y];
    }
  }

  /** Python `list.insert(i, x)`: a negative index counts from the end and
      every index is clamped into 0..len. */
  function PyInsertIndex(len: nat, i: int): (k: nat)
    ensures k <= len
    ensures 0 <= i <= len ==> k == i
    ensures i > len ==> k == len
  {
    if i < 0 then (if len + i < 0 then 0 else len + i)
    else if i > len then len
    else i
  }

  function PyInsert<T>(s: seq<T>, i: int, x: T): (r: seq<T>)
    ensures |r| == |s| + 1
    ensures r[PyInsertIndex(|s|, i)] == x
    ensures r[..PyInsertIndex(|s|, i)] == s[..PyInsertIndex(|s|, i)]
    ensures r[PyInsertIndex(|s|, i) + 1..] == s[PyInsertIndex(|s|, i)..]
  {
    var k := PyInsertIndex(|s|, i);
    s[..k] + [x] + s[k..]
  }

  /** `list.pop(i)` for a valid index. */
  function RemoveAt<T>(s: seq<T>, i: nat): (r: seq<T>)
    requires i < |s|
    ensures |r| == |s| - 1
    ensures forall j :: 0 <= j < i ==> r[j] == s[j]
    ensures forall j :: i <= j < |r| ==> r[j] == s[j + 1]
  {
    s[..i] + s[i + 1..]
  }

  /** Replaces every occurrence of `a` by `b` (the rename of a list entry
      `l[l.index(a)] = b`, applied where `a` occurs at most once). */
  function ReplaceAll<T(==)>(s: seq<T>, a: T, b: T): (r: seq<T>)
    ensures |r| == |s|
    ensures forall j :: 0 <= j < |s| ==> r[j] == (if s[j] == a then b else s[j])
  {
    if s == [] then [] else [if s[0] == a then b else s[0]] + ReplaceAll(s[1..], a, b)
  }

  /** `l[l.index(a)] = b` guarded by `a in l`: the first occurrence of `a`
      becomes `b`. */
  function ReplaceFirst<T(==)>(s: seq<T>, a: T, b: T): (r: seq<T>)
    ensures |r| == |s|
    ensures a !in s ==> r == s
    ensures a in s ==> exists i :: 0 <= i < |s| && s[i] == a && a !in s[..i] && r == s[i := b]
  {
    if s == [] then []
    else if s[0] == a then
      assert [b] + s[1..] == s[0 := b];
      [b] + s[1..]
    else
      var t := ReplaceFirst(s[1..], a, b);
      ReplaceFirstStep(s, a, b, t);
      [s[0]] + t
  }

  /** A replacement in the tail carries over to the whole sequence when the
      head is not the replaced element. */
  lemma ReplaceFirstStep<T>(s: seq<T>, a: T, b: T, t: seq<T>)
    requires s != [] && s[0] != a && |t| == |s| - 1
    requires a !in s[1..] ==> t == s[1..]
    requires a in s[1..] ==> exists j :: 0 <= j < |s| - 1 && s[1..][j] == a && a !in s[1..][..j] && t == s[1..][j := b]
    ensures a !in s ==> [s[0]] + t == s
    ensures a in s ==> exists i :: 0 <= i < |s| && s[i] == a && a !in s[..i] && [s[0]] + t == s[i := b]
  {
    assert s == [s[0]] + s[1..];
    if a in s {
      assert a in s[1..];
      var j :| 0 <= j < |s| - 1 && s[1..][j] == a && a !in s[1..][..j] && t == s[1..][j := b];
      assert s[..j + 1] == [s[0]] + s[1..][..j];
      assert [s[0]] + t == s[j + 1 := b];
    }
  }

  /** Renaming `a` to `b` and back restores a list that did not hold `b`. */
  lemma {:induction false} ReplaceFirstBack<T>(s: seq<T>, a: T, b: T)
    requires b !in s
    ensures ReplaceFirst(ReplaceFirst(s, a, b), b, a) == s
  {
    if s != [] && s[0] != a {
      ReplaceFirstBack(s[1..], a, b);
      assert ReplaceFirst(s, a, b) == [s[0]] + ReplaceFirst(s[1..], a, b);
    }
  }

  /** Python `list.insert(i, x)` followed by `list.pop(i)` is the identity,
      and so is popping then re-inserting at the same valid index. */
  lemma InsertThenPop<T>(s: seq<T>, i: nat, x: T)
    requires i <= |s|
    ensures RemoveAt(PyInsert(s, i, x), i) == s
  {
    var r := PyInsert(s, i, x);
    assert r == s[..i] + [x] + s[i..];
  }

  lemma PopThenInsert<T>(s: seq<T>, i: nat)
    requires i < |s|
    ensures PyInsert(RemoveAt(s, i), i, s[i]) == s
  {
    var r := RemoveAt(s, i);
    assert r[..i] == s[..i];
    assert r[i..] == s[i + 1..];
    assert PyInsert(r, i, s[i]) == s[..i] + [s[i]] + s[i + 1..];
    assert s == s[..i] + [s[i]] + s[i + 1..];
  }
}
