/** The bone queries of pyspine/old_pyspine/bone_common.py and the hit list
    of pyspine/old_pyspine/bone_editor.py: which bones lie under the
    cursor, in which part (end point, start point or body), and the order
    in which bones are drawn.

    The distances from the cursor to a bone's end point, start point and
    body come from trigonometry and are passed in as a `Probe`. The
    dictionary's iteration order is passed in as `order`, the keys in
    insertion order. */
module BoneQueries {
  import opened Types
  import KeyframeOrder

  /** The `interaction_type` of a hit. */
  datatype Part = EndPart | StartPart | BodyPart

  /** One `(bone_name, interaction_type, priority)` entry. */
  datatype Hit = Hit(name: string, part: Part, priority: int)

  /** End point 0, start point 1, body 2: lower is preferred. */
  function Priority(p: Part): (r: int)
    ensures 0 <= r <= 2
    ensures p == EndPart <==> r == 0
    ensures p == StartPart <==> r == 1
  {
    match p
    case EndPart => 0
    case StartPart => 1
    case BodyPart => 2
  }

  /** The cursor's distance to a bone's end point, start point and body
      segment. */
  datatype Probe = Probe(toEnd: Bone -> real, toStart: Bone -> real, toBody: Bone -> real)

  /** `order` lists every key of `bones` once: the dictionary's order. */
  ghost predicate InMapOrder(bones: Bones, order: seq<string>) {
    (forall k :: k in order <==> k in bones)
    && (forall i, j :: 0 <= i < j < |order| ==> order[i] != order[j])
  }

  // ----- Tolerances -----------------------------------------------------------

  /** `max(least, int(tolerance / max(1, zoom)))`: 3 in
      `get_all_bones_at_position`, 2 in `get_attachment_point_at_position`. */
  function AdjustedTolerance(least: int, tolerance: real, zoom: real): (t: int)
    ensures t >= least
    ensures zoom <= 1.0 ==> t == MaxI(least, PyInt(tolerance))
  {
    MaxI(least, PyInt(tolerance / MaxReal(1.0, zoom)))
  }

  /** Zooming in never widens the tolerance. */
  lemma ToleranceShrinksWithZoom(least: int, tolerance: real, z1: real, z2: real)
    requires 0.0 <= tolerance && z1 <= z2
    ensures AdjustedTolerance(least, tolerance, z2) <= AdjustedTolerance(least, tolerance, z1)
  {
    var d1, d2 := MaxReal(1.0, z1), MaxReal(1.0, z2);
    var q1, q2 := tolerance / d1, tolerance / d2;
    assert q1 * d1 == tolerance && q2 * d2 == tolerance;
    assert q1 >= 0.0 by {
      if q1 < 0.0 {
        ScaleMono(q1, 0.0, d1);
      }
    }
    assert q2 <= q1 by {
      if q2 > q1 {
        ScaleMono(q1, q2, d1);
        ScaleMono(d1, d2, q2);
      }
    }
  }

  /** `max(4, int(8 / zoom))`, the tolerance of the old bone editor; the
      division fails for a zero zoom. */
  function EditorTolerance(zoom: real): (t: int)
    requires zoom != 0.0
    ensures t >= 4
  {
    MaxI(4, PyInt(8.0 / zoom))
  }

  /** From zoom 2 on the floor of 4 applies; below it the tolerance is
      `int(8 / zoom)` and grows as the zoom shrinks. */
  lemma EditorToleranceFloor(zoom: real)
    requires zoom > 0.0
    ensures zoom >= 2.0 ==> EditorTolerance(zoom) == 4
    ensures zoom <= 1.0 ==> EditorTolerance(zoom) >= 8
  {
    var q := 8.0 / zoom;
    assert q * zoom == 8.0;
    if zoom >= 2.0 {
      assert q <= 4.0;
    }
    if zoom <= 1.0 {
      assert q >= 8.0;
    }
  }

  // ----- The (priority, name) order ---------------------------------------------

  /** Python's `<=` on `str`: lexicographic by code point. */
  predicate StrLe(a: string, b: string) {
    a == [] || (b != [] && (a[0] < b[0] || (a[0] == b[0] && StrLe(a[1..], b[1..]))))
  }

  lemma {:induction false} StrLeTotal(a: string, b: string)
    ensures StrLe(a, b) || StrLe(b, a)
    ensures StrLe(a, b) && StrLe(b, a) ==> a == b
  {
    if a != [] && b != [] && a[0] == b[0] {
      StrLeTotal(a[1..], b[1..]);
      assert a == [a[0]] + a[1..] && b == [b[0]] + b[1..];
    }
  }

  lemma {:induction false} StrLeTrans(a: string, b: string, c: string)
    requires StrLe(a, b) && StrLe(b, c)
    ensures StrLe(a, c)
  {
    if a != [] && b != [] && c != [] && a[0] == b[0] && b[0] == c[0] {
      StrLeTrans(a[1..], b[1..], c[1..]);
    }
  }

  /** The sort key `(priority, name)`, compared as a tuple. */
  predicate HitLe(h: Hit, g: Hit) {
    h.priority < g.priority || (h.priority == g.priority && StrLe(h.name, g.name))
  }

  lemma HitLeTotal(h: Hit, g: Hit)
    ensures HitLe(h, g) || HitLe(g, h)
  {
    StrLeTotal(h.name, g.name);
  }

  lemma HitLeTrans(h: Hit, g: Hit, f: Hit)
    requires HitLe(h, g) && HitLe(g, f)
    ensures HitLe(h, f)
  {
    if h.priority == g.priority && g.priority == f.priority {
      StrLeTrans(h.name, g.name, f.name);
    }
  }

  predicate SortedHits(s: seq<Hit>) {
    forall i, j :: 0 <= i < j < |s| ==> HitLe(s[i], s[j])
  }

  function InsertHit(s: seq<Hit>, x: Hit): (r: seq<Hit>)
    requires SortedHits(s)
    ensures SortedHits(r)
    ensures multiset(r) == multiset(s) + multiset{x}
  {
    if s == [] then [x]
    else if HitLe(x, s[0]) then
      HitBeforeSorted(s, x);
      [x] + s
    else
      var t := InsertHit(s[1..], x);
      HitHeadBeforeInserted(s, x, t);
      [s[0]] + t
  }

  /** A hit no later than the head of a sorted list goes in front of it. */
  lemma HitBeforeSorted(s: seq<Hit>, x: Hit)
    requires SortedHits(s) && s != [] && HitLe(x, s[0])
    ensures SortedHits([x] + s)
  {
    var r := [x] + s;
    forall i, j | 0 <= i < j < |r|
      ensures HitLe(r[i], r[j])
    {
      assert r[j] == s[j - 1];
      if i > 0 {
        assert r[i] == s[i - 1];
      } else if j > 1 {
        HitLeTrans(x, s[0], s[j - 1]);
      }
    }
  }

  /** The head of a sorted list stays in front once a later hit is
      inserted behind it. */
  lemma HitHeadBeforeInserted(s: seq<Hit>, x: Hit, t: seq<Hit>)
    requires SortedHits(s) && s != [] && !HitLe(x, s[0])
    requires SortedHits(t) && multiset(t) == multiset(s[1..]) + multiset{x}
    ensures SortedHits([s[0]] + t)
    ensures multiset([s[0]] + t) == multiset(s) + multiset{x}
  {
    HitLeTotal(x, s[0]);
    assert s == [s[0]] + s[1..];
    var r := [s[0]] + t;
    forall i, j | 0 <= i < j < |r|
      ensures HitLe(r[i], r[j])
    {
      assert r[j] == t[j - 1];
      if i > 0 {
        assert r[i] == t[i - 1];
      } else {
        assert t[j - 1] in multiset(t);
        assert t[j - 1] == x || t[j - 1] in s[1..];
      }
    }
    assert multiset(r) == multiset{s[0]} + multiset(t);
  }

  /** `list.sort(key=lambda x: (x[2], x[0]))`. */
  function SortHits(s: seq<Hit>): (r: seq<Hit>)
    ensures SortedHits(r)
    ensures multiset(r) == multiset(s)
  {
    if s == [] then []
    else
      assert s == s[..|s| - 1] + [s[|s| - 1]];
      InsertHit(SortHits(s[..|s| - 1]), s[|s| - 1])
  }

  // ----- get_all_bones_at_position ------------------------------------------

  /** The entries `get_all_bones_at_position` makes for one bone: the end
      and the start point each when within the tolerance, and the body,
      within 0.7 of it, only when neither point was hit. */
  ghost predicate Qualifies(bones: Bones, probe: Probe, tol: int, h: Hit) {
    h.name in bones && h.priority == Priority(h.part) &&
    var b := bones[h.name];
    match h.part
    case EndPart => probe.toEnd(b) < tol as real
    case StartPart => probe.toStart(b) < tol as real
    case BodyPart =>
      !(probe.toEnd(b) < tol as real) && !(probe.toStart(b) < tol as real)
      && probe.toBody(b) < tol as real * 0.7
  }

  /** The entries of one bone, in the order the loop appends them. */
  function HitsOf(b: Bone, name: string, probe: Probe, tol: int): (r: seq<Hit>)
    ensures forall h :: h in r <==> h.name == name && Qualifies(map[name := b], probe, tol, h)
    ensures forall i, j :: 0 <= i < j < |r| ==> r[i] != r[j]
  {
    var e := if probe.toEnd(b) < tol as real then [Hit(name, EndPart, 0)] else [];
    var s := if probe.toStart(b) < tol as real then [Hit(name, StartPart, 1)] else [];
    var body := if e == [] && s == [] && probe.toBody(b) < tol as real * 0.7 then [Hit(name, BodyPart, 2)] else [];
    e + s + body
  }

  // ----- Lists without repeats ----------------------------------------------------

  predicate Distinct<T(==)>(s: seq<T>) {
    forall i, j :: 0 <= i < j < |s| ==> s[i] != s[j]
  }

  lemma {:induction false} DistinctCounts<T>(s: seq<T>)
    ensures Distinct(s) <==> forall x :: multiset(s)[x] <= 1
    decreases |s|
  {
    if s != [] {
      var t := s[1..];
      DistinctCounts(t);
      assert s == [s[0]] + t;
      assert multiset(s) == multiset{s[0]} + multiset(t);
      if Distinct(s) {
        assert Distinct(t) by {
          forall i, j | 0 <= i < j < |t| ensures t[i] != t[j] {
            assert t[i] == s[i + 1] && t[j] == s[j + 1];
          }
        }
        assert s[0] !in t;
      }
      if forall x :: multiset(s)[x] <= 1 {
        assert forall x :: multiset(t)[x] <= 1 by {
          forall x ensures multiset(t)[x] <= 1 {
            assert multiset(s)[x] <= 1;
          }
        }
        assert multiset(t)[s[0]] == 0 by {
          assert multiset(s)[s[0]] <= 1;
        }
        forall i, j | 0 <= i < j < |s| ensures s[i] != s[j] {
          if i == 0 {
            assert s[j] == t[j - 1];
          } else {
            assert s[i] == t[i - 1] && s[j] == t[j - 1];
          }
        }
      }
    }
  }

  /** Reordering keeps the elements and keeps them unrepeated. */
  lemma Permuted<T>(s: seq<T>, r: seq<T>)
    requires multiset(r) == multiset(s)
    ensures forall x :: x in r <==> x in s
    ensures Distinct(s) ==> Distinct(r)
  {
    forall x
      ensures x in r <==> x in s
    {
      assert x in r <==> multiset(r)[x] > 0;
      assert x in s <==> multiset(s)[x] > 0;
    }
    DistinctCounts(s);
    DistinctCounts(r);
  }

  lemma AppendDistinct<T>(a: seq<T>, b: seq<T>)
    requires Distinct(a) && Distinct(b)
    requires forall x :: x in b ==> x !in a
    ensures Distinct(a + b)
  {
    forall i, j | 0 <= i < j < |a + b| ensures (a + b)[i] != (a + b)[j] {
      if i < |a| && j >= |a| {
        assert (a + b)[j] == b[j - |a|];
        assert (a + b)[i] in a;
      }
    }
  }

  // ----- get_all_bones_at_position ------------------------------------------

  /** One round of the collecting loop: the entries of the next bone are
      new, and the list then holds exactly the qualifying entries of the
      bones seen so far. */
  lemma CollectStep(bones: Bones, order: seq<string>, probe: Probe, tol: int, i: nat, found: seq<Hit>)
    requires InMapOrder(bones, order) && i < |order|
    requires forall h :: h in found <==> Qualifies(bones, probe, tol, h) && h.name in order[..i]
    requires Distinct(found)
    ensures var mine := HitsOf(bones[order[i]], order[i], probe, tol);
      && (forall h :: h in found + mine <==> Qualifies(bones, probe, tol, h) && h.name in order[..i + 1])
      && Distinct(found + mine)
  {
    var name := order[i];
    var mine := HitsOf(bones[name], name, probe, tol);
    assert forall h :: h in mine ==> h !in found;
    assert forall h :: h in mine <==> h.name == name && Qualifies(bones, probe, tol, h);
    assert order[..i + 1] == order[..i] + [name];
    AppendDistinct(found, mine);
  }

  /** `get_all_bones_at_position`: every qualifying entry once, sorted by
      `(priority, name)`. */
  method AllBonesAt(bones: Bones, order: seq<string>, probe: Probe, tol: int) returns (r: seq<Hit>)
    requires InMapOrder(bones, order)
    ensures SortedHits(r) && Distinct(r)
    ensures forall h :: h in r <==> Qualifies(bones, probe, tol, h)
  {
    var found: seq<Hit> := [];
    for i := 0 to |order|
      invariant forall h :: h in found <==> Qualifies(bones, probe, tol, h) && h.name in order[..i]
      invariant Distinct(found)
    {
      var name := order[i];
      var mine := HitsOf(bones[name], name, probe, tol);
      CollectStep(bones, order, probe, tol, i, found);
      found := found + mine;
    }
    assert order[..|order|] == order;
    r := SortHits(found);
    Permuted(found, r);
  }

  /** `get_bone_at_position`: the name of the first entry, the preferred
      hit, or none. */
  method BoneAt(bones: Bones, order: seq<string>, probe: Probe, tol: int) returns (r: Option<string>)
    requires InMapOrder(bones, order)
    ensures r.None? <==> forall h :: !Qualifies(bones, probe, tol, h)
    ensures r.Some? ==> exists h: Hit :: (h.name == r.value && Qualifies(bones, probe, tol, h)
      && forall g :: Qualifies(bones, probe, tol, g) ==> HitLe(h, g))
  {
    var hits := AllBonesAt(bones, order, probe, tol);
    if hits == [] {
      assert forall h :: !Qualifies(bones, probe, tol, h) by {
        forall h ensures !Qualifies(bones, probe, tol, h) {
          assert h !in hits;
        }
      }
      return None;
    }
    var first := hits[0];
    assert Qualifies(bones, probe, tol, first);
    assert forall g :: Qualifies(bones, probe, tol, g) ==> HitLe(first, g) by {
      forall g | Qualifies(bones, probe, tol, g) ensures HitLe(first, g) {
        assert g in hits;
        var j :| 0 <= j < |hits| && hits[j] == g;
        if j == 0 {
          StrLeTotal(g.name, g.name);
        }
      }
    }
    r := Some(first.name);
  }

  /** `get_attachment_point_at_position`: the first bone in map order whose
      end point, else start point, is within the tolerance. */
  method AttachmentPointAt(bones: Bones, order: seq<string>, probe: Probe, tol: int)
    returns (r: Option<(string, AttachmentPoint)>)
    requires InMapOrder(bones, order)
    ensures r.None? <==> forall k :: k in bones ==> !(probe.toEnd(bones[k]) < tol as real) && !(probe.toStart(bones[k]) < tol as real)
    ensures r.Some? ==> exists i :: (0 <= i < |order| && order[i] == r.value.0
      && (forall j :: 0 <= j < i ==> !(probe.toEnd(bones[order[j]]) < tol as real) && !(probe.toStart(bones[order[j]]) < tol as real))
      && (if probe.toEnd(bones[order[i]]) < tol as real then r.value.1 == End
          else probe.toStart(bones[order[i]]) < tol as real && r.value.1 == Start))
  {
    for i := 0 to |order|
      invariant forall j :: 0 <= j < i ==> !(probe.toEnd(bones[order[j]]) < tol as real) && !(probe.toStart(bones[order[j]]) < tol as real)
    {
      var b := bones[order[i]];
      if probe.toEnd(b) < tol as real {
        return Some((order[i], End));
      }
      if probe.toStart(b) < tol as real {
        return Some((order[i], Start));
      }
    }
    forall k | k in bones
      ensures !(probe.toEnd(bones[k]) < tol as real) && !(probe.toStart(bones[k]) < tol as real)
    {
      var j :| 0 <= j < |order| && order[j] == k;
    }
    return None;
  }

  // ----- get_objects_at_position of the old bone editor ---------------------------

  /** Its single entry for a bone: end point, else start point, else body
      (the `elif` chain). */
  ghost predicate QualifiesOnce(bones: Bones, probe: Probe, tol: int, h: Hit) {
    h.name in bones && h.priority == Priority(h.part) &&
    var b := bones[h.name];
    match h.part
    case EndPart => probe.toEnd(b) < tol as real
    case StartPart => !(probe.toEnd(b) < tol as real) && probe.toStart(b) < tol as real
    case BodyPart =>
      !(probe.toEnd(b) < tol as real) && !(probe.toStart(b) < tol as real)
      && probe.toBody(b) < tol as real * 0.7
  }

  function EntryOf(b: Bone, name: string, probe: Probe, tol: int): (r: Option<Hit>)
    ensures forall h :: r == Some(h) <==> h.name == name && QualifiesOnce(map[name := b], probe, tol, h)
  {
    if probe.toEnd(b) < tol as real then Some(Hit(name, EndPart, 0))
    else if probe.toStart(b) < tol as real then Some(Hit(name, StartPart, 1))
    else if probe.toBody(b) < tol as real * 0.7 then Some(Hit(name, BodyPart, 2))
    else None
  }

  /** `get_objects_at_position` of pyspine/old_pyspine/bone_editor.py, with
      `tol` its `max(4, int(8 / zoom))`: at most one entry per bone, sorted
      by `(priority, name)`. */
  method ObjectsAt(bones: Bones, order: seq<string>, probe: Probe, tol: int) returns (r: seq<Hit>)
    requires InMapOrder(bones, order)
    ensures SortedHits(r)
    ensures forall h :: h in r <==> QualifiesOnce(bones, probe, tol, h)
    ensures forall i, j :: 0 <= i < j < |r| ==> r[i].name != r[j].name
  {
    var found: seq<Hit> := [];
    for i := 0 to |order|
      invariant forall h :: h in found <==> QualifiesOnce(bones, probe, tol, h) && h.name in order[..i]
      invariant Distinct(found)
    {
      var name := order[i];
      var e := EntryOf(bones[name], name, probe, tol);
      assert order[..i + 1] == order[..i] + [name];
      if e.Some? {
        assert e.value !in found;
        AppendDistinct(found, [e.value]);
        found := found + [e.value];
      }
    }
    assert order[..|order|] == order;
    r := SortHits(found);
    Permuted(found, r);
    forall i, j | 0 <= i < j < |r|
      ensures r[i].name != r[j].name
    {
      assert r[i] in found && r[j] in found;
      OneEntryPerBone(bones, probe, tol, r[i], r[j]);
    }
  }

  /** The `elif` chain gives a bone one entry at most. */
  lemma OneEntryPerBone(bones: Bones, probe: Probe, tol: int, h: Hit, g: Hit)
    requires QualifiesOnce(bones, probe, tol, h) && QualifiesOnce(bones, probe, tol, g)
    ensures h.name == g.name ==> h == g
  {
  }

  // ----- draw_bones_by_layer_order ------------------------------------------

  /** BEHIND first, FRONT last. */
  function LayerRank(l: BoneLayer): (r: int)
    ensures 0 <= r <= 2
    ensures l == Behind <==> r == 0
    ensures l == Front <==> r == 2
  {
    match l
    case Behind => 0
    case Middle => 1
    case Front => 2
  }

  /** The bones of `order` in layer `l`, in map order. */
  function InLayer(bones: Bones, order: seq<string>, l: BoneLayer): (r: seq<string>)
    ensures forall k :: k in r <==> k in order && k in bones && bones[k].layer == l
    ensures multiset(r) <= multiset(order)
  {
    if order == [] then []
    else
      assert order == [order[0]] + order[1..];
      (if order[0] in bones && bones[order[0]].layer == l then [order[0]] else []) + InLayer(bones, order[1..], l)
  }

  function OrderKey(bones: Bones): string -> real {
    k => if k in bones then bones[k].layerOrder as real else 0.0
  }

  /** `draw_bones_by_layer_order`: the bones grouped by layer, BEHIND, MIDDLE
      then FRONT, each group sorted by `layer_order`. */
  function DrawOrder(bones: Bones, order: seq<string>): (r: seq<string>)
    requires InMapOrder(bones, order)
  {
    Group(bones, order, Behind) + Group(bones, order, Middle) + Group(bones, order, Front)
  }

  /** `x` may be drawn before `y`: a lower layer, or the same layer and a
      `layer_order` no higher. */
  predicate DrawnBefore(bones: Bones, x: string, y: string)
    requires x in bones && y in bones
  {
    LayerRank(bones[x].layer) < LayerRank(bones[y].layer)
    || (bones[x].layer == bones[y].layer && bones[x].layerOrder <= bones[y].layerOrder)
  }

  ghost predicate DrawSorted(bones: Bones, s: seq<string>) {
    (forall k :: k in s ==> k in bones)
    && forall i, j :: 0 <= i < j < |s| ==> DrawnBefore(bones, s[i], s[j])
  }

  /** The layer group of `l`, sorted by `layer_order`. */
  function Group(bones: Bones, order: seq<string>, l: BoneLayer): seq<string> {
    KeyframeOrder.SortBy(InLayer(bones, order, l), OrderKey(bones))
  }

  lemma GroupMembers(bones: Bones, order: seq<string>, l: BoneLayer)
    ensures forall k :: k in Group(bones, order, l) <==> k in order && k in bones && bones[k].layer == l
  {
    Permuted(InLayer(bones, order, l), Group(bones, order, l));
  }

  /** One layer group is drawn in order. */
  lemma GroupSorted(bones: Bones, order: seq<string>, l: BoneLayer)
    ensures DrawSorted(bones, Group(bones, order, l))
  {
    var key := OrderKey(bones);
    var g := Group(bones, order, l);
    KeyframeOrder.SortBySorted(InLayer(bones, order, l), key);
    GroupMembers(bones, order, l);
    forall i, j | 0 <= i < j < |g|
      ensures DrawnBefore(bones, g[i], g[j])
    {
      assert key(g[i]) <= key(g[j]);
    }
  }

  /** Two groups drawn in order, every bone of the first before every bone
      of the second, are drawn in order one after the other. */
  lemma ConcatSorted(bones: Bones, x: seq<string>, y: seq<string>)
    requires DrawSorted(bones, x) && DrawSorted(bones, y)
    requires forall a, c :: a in x && c in y ==> DrawnBefore(bones, a, c)
    ensures DrawSorted(bones, x + y)
  {
    forall i, j | 0 <= i < j < |x + y|
      ensures DrawnBefore(bones, (x + y)[i], (x + y)[j])
    {
      if j < |x| {
        assert (x + y)[i] == x[i] && (x + y)[j] == x[j];
      } else if i >= |x| {
        assert (x + y)[i] == y[i - |x|] && (x + y)[j] == y[j - |x|];
      } else {
        assert (x + y)[i] in x && (x + y)[j] == y[j - |x|];
      }
    }
  }

  /** Every bone is drawn, and exactly once. */
  lemma DrawOrderComplete(bones: Bones, order: seq<string>)
    requires InMapOrder(bones, order)
    ensures forall k :: k in DrawOrder(bones, order) <==> k in bones
    ensures |DrawOrder(bones, order)| == |bones|
  {
    DrawOrderLength(bones, order);
    DrawOrderMembers(bones, order);
  }

  lemma DrawOrderLength(bones: Bones, order: seq<string>)
    requires InMapOrder(bones, order)
    ensures |DrawOrder(bones, order)| == |bones|
  {
    PartitionCount(bones, order);
    KeysCount(bones, order);
    assert |Group(bones, order, Behind)| == |InLayer(bones, order, Behind)|;
    assert |Group(bones, order, Middle)| == |InLayer(bones, order, Middle)|;
    assert |Group(bones, order, Front)| == |InLayer(bones, order, Front)|;
  }

  lemma DrawOrderMembers(bones: Bones, order: seq<string>)
    requires InMapOrder(bones, order)
    ensures forall k :: k in DrawOrder(bones, order) <==> k in bones
  {
    var b, m, f := Group(bones, order, Behind), Group(bones, order, Middle), Group(bones, order, Front);
    GroupMembers(bones, order, Behind);
    GroupMembers(bones, order, Middle);
    GroupMembers(bones, order, Front);
    forall k
      ensures k in b + m + f <==> k in bones
    {
      assert k in b + m + f <==> k in b || k in m || k in f;
    }
  }

  /** A lower layer is drawn before a higher one, and within a layer a lower
      `layer_order` first. */
  lemma DrawOrderSorted(bones: Bones, order: seq<string>)
    requires InMapOrder(bones, order)
    ensures DrawSorted(bones, DrawOrder(bones, order))
  {
    var b, m, f := Group(bones, order, Behind), Group(bones, order, Middle), Group(bones, order, Front);
    GroupSorted(bones, order, Behind);
    GroupSorted(bones, order, Middle);
    GroupSorted(bones, order, Front);
    GroupMembers(bones, order, Behind);
    GroupMembers(bones, order, Middle);
    GroupMembers(bones, order, Front);
    ConcatSorted(bones, b, m);
    assert forall c :: c in b + m ==> c in b || c in m;
    ConcatSorted(bones, b + m, f);
  }

  /** Splitting a list of bones by layer keeps its length. */
  lemma {:induction false} PartitionCount(bones: Bones, order: seq<string>)
    requires forall k :: k in order ==> k in bones
    ensures |InLayer(bones, order, Behind)| + |InLayer(bones, order, Middle)| + |InLayer(bones, order, Front)| == |order|
    decreases |order|
  {
    if order != [] {
      PartitionCount(bones, order[1..]);
    }
  }

  /** A list without repeats has as many entries as distinct elements. */
  lemma {:induction false} DistinctCount(order: seq<string>)
    requires forall i, j :: 0 <= i < j < |order| ==> order[i] != order[j]
    ensures |set k | k in order| == |order|
    decreases |order|
  {
    if order != [] {
      DistinctCount(order[1..]);
      var rest := set k | k in order[1..];
      assert order[0] !in rest;
      assert (set k | k in order) == rest + {order[0]};
    }
  }

  lemma KeysCount(bones: Bones, order: seq<string>)
    requires InMapOrder(bones, order)
    ensures |order| == |bones|
  {
    DistinctCount(order);
    assert (set k | k in order) == bones.Keys;
  }
}
