/** The repositioning that follows every move, turn or attachment change of
    a bone in pyspine/PySpine_BoneEditor.py (`_update_child_bone_positions`
    and `_update_bone_attachment_position`, lines 769-814) and in its twin
    pyspine/old_pyspine/bone_editor.py (lines 551-576 and 680-701): each
    bone listed among a bone's children is put at the point where it
    attaches (the parent's start for START, its end for END), and then its
    own children follow, depth first, in list order.

    A bone's end point, `x + length * cos(angle)` and `y + length *
    sin(angle)` with the angle in degrees, needs trigonometry; it is the
    parameter `tip` here. The recursion of the source has no bound and only
    stops on a hierarchy without cycles; here `n` bounds its depth, and the
    editors use the number of bones, which every path without a repeated
    bone stays within. */
module BonePlacement {
  import opened Types

  /** Where a bone ends, computed outside the model. */
  type EndPoint = Bone -> (real, real)

  /** The point of `p` that a child attached at `at` sits on. */
  function AttachPoint(p: Bone, at: AttachmentPoint, tip: EndPoint): (real, real) {
    if at == End then tip(p) else (p.x, p.y)
  }

  /** A bone with its position left out. */
  function Frame(b: Bone): Bone {
    b.(x := 0.0, y := 0.0)
  }

  /** Child `c` moved onto its attachment point on `p`. */
  function Placed(c: Bone, p: Bone, tip: EndPoint): (r: Bone)
    ensures Frame(r) == Frame(c)
    ensures (r.x, r.y) == AttachPoint(p, c.parentAttachmentPoint, tip)
  {
    var q := AttachPoint(p, c.parentAttachmentPoint, tip);
    c.(x := q.0, y := q.1)
  }

  /** `_update_child_bone_positions(name)`, at most `n` levels deep. */
  function Follow(d: Bones, name: string, tip: EndPoint, n: nat): (r: Bones)
    ensures r.Keys == d.Keys
    decreases n, 0
  {
    if n == 0 || name !in d then d
    else FollowKids(d, name, d[name].children, tip, n - 1)
  }

  /** The loop over `kids`: each one that is a bone is placed on the
      current `parent` and then its own children follow. */
  function FollowKids(d: Bones, parent: string, kids: seq<string>, tip: EndPoint, n: nat): (r: Bones)
    ensures r.Keys == d.Keys
    decreases n, |kids|
  {
    if kids == [] then d
    else
      var c := kids[0];
      var d1 := if c in d && parent in d then d[c := Placed(d[c], d[parent], tip)] else d;
      FollowKids(if c in d then Follow(d1, c, tip, n) else d1, parent, kids[1..], tip, n)
  }

  /** `_update_bone_attachment_position(name)`: a bone whose parent is a
      bone is placed on it, then its children follow. */
  function Reattach(d: Bones, name: string, tip: EndPoint, n: nat): (r: Bones)
    ensures r.Keys == d.Keys
  {
    if name !in d || !IsSet(d[name].parent) || d[name].parent.value !in d then d
    else Follow(d[name := Placed(d[name], d[d[name].parent.value], tip)], name, tip, n)
  }

  /** The editors' calls, bounded by the number of bones. */
  function Reposition(d: Bones, name: string, tip: EndPoint): Bones {
    Follow(d, name, tip, |d|)
  }

  function Realign(d: Bones, name: string, tip: EndPoint): Bones {
    Reattach(d, name, tip, |d|)
  }

  // ----- What the walk can reach ----------------------------------------------

  /** The children lists of the dictionary. */
  function Children(d: Bones): map<string, seq<string>> {
    map k | k in d :: d[k].children
  }

  /** The bones the walk from `name` places, within `n` levels. */
  function Reach(ch: map<string, seq<string>>, name: string, n: nat): set<string>
    decreases n, 0
  {
    if n == 0 || name !in ch then {} else ReachKids(ch, ch[name], n - 1)
  }

  function ReachKids(ch: map<string, seq<string>>, kids: seq<string>, n: nat): set<string>
    decreases n, |kids|
  {
    if kids == [] then {}
    else (if kids[0] in ch then {kids[0]} + Reach(ch, kids[0], n) else {}) + ReachKids(ch, kids[1..], n)
  }

  /** Every listed kid that is a bone is reached. */
  lemma KidReached(ch: map<string, seq<string>>, kids: seq<string>, c: string, n: nat)
    requires c in kids && c in ch
    ensures c in ReachKids(ch, kids, n)
    decreases |kids|
  {
    if kids[0] != c {
      KidReached(ch, kids[1..], c, n);
    }
  }

  function Subtree(d: Bones, name: string): set<string> {
    Reach(Children(d), name, |d|)
  }

  /** Each kid is outside its own subtree and outside those of the kids
      after it: the children lists below form a tree. */
  ghost predicate Untangled(ch: map<string, seq<string>>, kids: seq<string>, n: nat)
    decreases |kids|
  {
    kids == [] ||
    (&& kids[0] !in Reach(ch, kids[0], n)
     && kids[0] !in ReachKids(ch, kids[1..], n)
     && Untangled(ch, kids[1..], n))
  }

  // ----- Dictionaries that differ in positions only -----------------------------

  /** The dictionary with every position left out. */
  function Shapes(d: Bones): map<string, Bone> {
    map k | k in d :: Frame(d[k])
  }

  /** `e` holds the same bones as `d`, differing at most in position. */
  predicate SameShape(d: Bones, e: Bones) {
    d.Keys == e.Keys && Shapes(d) == Shapes(e)
  }

  lemma ShapeAt(d: Bones, e: Bones, k: string)
    requires SameShape(d, e) && k in d
    ensures k in e && Frame(d[k]) == Frame(e[k])
  {
    assert k in Shapes(d);
  }

  lemma ShapeChildren(d: Bones, e: Bones)
    requires SameShape(d, e)
    ensures d.Keys == e.Keys && Children(d) == Children(e) && |d| == |e|
  {
    assert d.Keys == Shapes(d).Keys;
    forall k | k in d ensures d[k].children == e[k].children {
      ShapeAt(d, e, k);
    }
  }

  /** Moving one bone keeps the shape. */
  lemma ShapeMove(d: Bones, k: string, b: Bone)
    requires k in d && Frame(b) == Frame(d[k])
    ensures SameShape(d, d[k := b])
  {
    assert Shapes(d[k := b]) == Shapes(d);
  }

  /** One turn of the loop over the kids. */
  lemma FollowKidsStep(d: Bones, parent: string, kids: seq<string>, tip: EndPoint, n: nat)
    requires kids != [] && parent in d
    ensures var c := kids[0];
      FollowKids(d, parent, kids, tip, n) ==
        if c in d then FollowKids(Follow(d[c := Placed(d[c], d[parent], tip)], c, tip, n), parent, kids[1..], tip, n)
        else FollowKids(d, parent, kids[1..], tip, n)
  {
  }

  lemma ReachKidsStep(ch: map<string, seq<string>>, kids: seq<string>, n: nat)
    requires kids != []
    ensures ReachKids(ch, kids, n) ==
      if kids[0] in ch then {kids[0]} + Reach(ch, kids[0], n) + ReachKids(ch, kids[1..], n)
      else ReachKids(ch, kids[1..], n)
  {
  }

  // ----- The walk moves bones only, and only the ones it reaches ---------------

  lemma {:induction false} FollowShape(d: Bones, name: string, tip: EndPoint, n: nat)
    ensures var r := Follow(d, name, tip, n);
      && SameShape(d, r)
      && forall k :: k in d && k !in Reach(Children(d), name, n) ==> r[k] == d[k]
    decreases n, 0
  {
    if n > 0 && name in d {
      FollowKidsShape(d, name, d[name].children, tip, n - 1);
    }
  }

  lemma {:induction false} FollowKidsShape(d: Bones, parent: string, kids: seq<string>, tip: EndPoint, n: nat)
    ensures var r := FollowKids(d, parent, kids, tip, n);
      && SameShape(d, r)
      && forall k :: k in d && k !in ReachKids(Children(d), kids, n) ==> r[k] == d[k]
    decreases n, |kids|
  {
    if kids != [] {
      var c := kids[0];
      if c in d {
        var d1 := if parent in d then d[c := Placed(d[c], d[parent], tip)] else d;
        if parent in d {
          ShapeMove(d, c, Placed(d[c], d[parent], tip));
        }
        ShapeChildren(d, d1);
        FollowShape(d1, c, tip, n);
        var d2 := Follow(d1, c, tip, n);
        ShapeChildren(d, d2);
        FollowKidsShape(d2, parent, kids[1..], tip, n);
        assert FollowKids(d, parent, kids, tip, n) == FollowKids(d2, parent, kids[1..], tip, n);
      } else {
        FollowKidsShape(d, parent, kids[1..], tip, n);
        assert FollowKids(d, parent, kids, tip, n) == FollowKids(d, parent, kids[1..], tip, n);
      }
    }
  }

  // ----- The walk reads only the bone it starts from ---------------------------

  /** Two dictionaries that agree outside `s`, where the walk does not
      start, agree after the walk outside what is left of `s` once the
      reached bones are taken out: every reached bone is overwritten from
      its parent's current position. */
  lemma {:induction false} FollowAgree(d: Bones, e: Bones, name: string, tip: EndPoint, n: nat, s: set<string>)
    requires SameShape(d, e) && name !in s
    requires forall k :: k in d && k !in s ==> d[k] == e[k]
    ensures var rd, re := Follow(d, name, tip, n), Follow(e, name, tip, n);
      forall k :: k in d && k !in s - Reach(Children(d), name, n) ==> rd[k] == re[k]
    decreases n, 0
  {
    assert d.Keys == e.Keys by {
      ShapeChildren(d, e);
    }
    if n > 0 && name in d {
      FollowKidsAgree(d, e, name, d[name].children, tip, n - 1, s);
    }
  }

  /** Placing child `c` on a parent outside `s` keeps two dictionaries
      that agree outside `s` in agreement outside `s` less `c`. */
  lemma PlaceAgree(d: Bones, e: Bones, c: string, parent: string, tip: EndPoint, s: set<string>)
    requires SameShape(d, e) && parent in d && parent !in s && c in d
    requires forall k :: k in d && k !in s ==> d[k] == e[k]
    ensures var d1, e1 := d[c := Placed(d[c], d[parent], tip)], e[c := Placed(e[c], e[parent], tip)];
      && SameShape(d, d1) && SameShape(d1, e1)
      && forall k :: k in d1 && k !in s - {c} ==> d1[k] == e1[k]
  {
    ShapeAt(d, e, c);
    assert d[parent] == e[parent];
    var pd, pe := Placed(d[c], d[parent], tip), Placed(e[c], e[parent], tip);
    assert pd == pe;
    ShapeMove(d, c, pd);
    ShapeMove(e, c, pe);
  }

  lemma {:induction false} FollowKidsAgree(d: Bones, e: Bones, parent: string, kids: seq<string>,
                                           tip: EndPoint, n: nat, s: set<string>)
    requires SameShape(d, e) && parent in d && parent !in s
    requires forall k :: k in d && k !in s ==> d[k] == e[k]
    ensures var rd, re := FollowKids(d, parent, kids, tip, n), FollowKids(e, parent, kids, tip, n);
      forall k :: k in d && k !in s - ReachKids(Children(d), kids, n) ==> rd[k] == re[k]
    decreases n, |kids|
  {
    if kids != [] {
      var c := kids[0];
      var ch := Children(d);
      assert d.Keys == e.Keys by {
        ShapeChildren(d, e);
      }
      if c !in d {
        FollowKidsAgree(d, e, parent, kids[1..], tip, n, s);
        FollowKidsStep(d, parent, kids, tip, n);
        FollowKidsStep(e, parent, kids, tip, n);
        ReachKidsStep(ch, kids, n);
      } else {
        var d1 := d[c := Placed(d[c], d[parent], tip)];
        var e1 := e[c := Placed(e[c], e[parent], tip)];
        var d2, e2 := Follow(d1, c, tip, n), Follow(e1, c, tip, n);
        var s2 := s - {c} - Reach(ch, c, n);
        assert && SameShape(d2, e2) && parent in d2 && parent !in s2
               && ReachKids(Children(d2), kids[1..], n) == ReachKids(ch, kids[1..], n)
               && forall k :: k in d2 && k !in s2 ==> d2[k] == e2[k]
        by {
          PlaceAgree(d, e, c, parent, tip, s);
          ShapeChildren(d, d1);
          FollowAgree(d1, e1, c, tip, n, s - {c});
          FollowShape(d1, c, tip, n);
          FollowShape(e1, c, tip, n);
          ShapeChildren(d, d2);
        }
        FollowKidsAgree(d2, e2, parent, kids[1..], tip, n, s2);
        var rd, re := FollowKids(d2, parent, kids[1..], tip, n), FollowKids(e2, parent, kids[1..], tip, n);
        FollowKidsStep(d, parent, kids, tip, n);
        FollowKidsStep(e, parent, kids, tip, n);
        ReachKidsStep(ch, kids, n);
        forall k | k in d && k !in s - ReachKids(ch, kids, n) ensures rd[k] == re[k] {
          assert k !in s2 - ReachKids(ch, kids[1..], n);
        }
      }
    }
  }

  /** Walking twice from a bone outside its own subtree is walking once. */
  lemma FollowIdempotent(d: Bones, name: string, tip: EndPoint, n: nat)
    requires name !in Reach(Children(d), name, n)
    ensures Follow(Follow(d, name, tip, n), name, tip, n) == Follow(d, name, tip, n)
  {
    var r := Follow(d, name, tip, n);
    FollowShape(d, name, tip, n);
    ShapeChildren(d, r);
    FollowAgree(r, d, name, tip, n, Reach(Children(d), name, n));
    FollowShape(r, name, tip, n);
  }

  /** Walking from a bone, replacing the bone by one with the same children
      and walking again is replacing it and walking once: the second walk
      overwrites everything the first one moved. */
  lemma FollowAfterFollow(d: Bones, name: string, b: Bone, tip: EndPoint, n: nat)
    requires name in d && name !in Reach(Children(d), name, n)
    requires b.children == d[name].children
    ensures Follow(Follow(d, name, tip, n)[name := b], name, tip, n) == Follow(d[name := b], name, tip, n)
  {
    var reach := Reach(Children(d), name, n);
    var f := Follow(d, name, tip, n);
    var d1, e1 := f[name := b], d[name := b];
    assert SameShape(d, f) && f[name] == d[name]
           && forall k :: k in d && k !in reach ==> f[k] == d[k]
    by {
      FollowShape(d, name, tip, n);
    }
    assert SameShape(d1, e1) by {
      assert Shapes(d1) == Shapes(f)[name := Frame(b)];
      assert Shapes(e1) == Shapes(d)[name := Frame(b)];
    }
    assert Reach(Children(d1), name, n) == reach by {
      ShapeChildren(d, f);
      assert Children(d1) == Children(f)[name := b.children];
      assert Children(f)[name := b.children] == Children(f);
      assert Children(d1) == Children(d);
    }
    var rd, re := Follow(d1, name, tip, n), Follow(e1, name, tip, n);
    assert rd == re by {
      FollowAgree(d1, e1, name, tip, n, reach);
      SameEntries(rd, re);
    }
  }

  // ----- The walk puts the children where they attach ---------------------------

  lemma {:induction false} FollowKidsPlaces(d: Bones, parent: string, kids: seq<string>, tip: EndPoint, n: nat)
    requires parent in d && parent !in ReachKids(Children(d), kids, n)
    requires Untangled(Children(d), kids, n)
    ensures var r := FollowKids(d, parent, kids, tip, n);
      && r[parent] == d[parent]
      && forall c :: c in kids && c in d ==>
           (r[c].x, r[c].y) == AttachPoint(d[parent], d[c].parentAttachmentPoint, tip)
    decreases |kids|
  {
    if kids != [] {
      var c := kids[0];
      var ch := Children(d);
      var d1 := if c in d then d[c := Placed(d[c], d[parent], tip)] else d;
      var d2 := if c in d then Follow(d1, c, tip, n) else d1;
      if c in d {
        ShapeMove(d, c, Placed(d[c], d[parent], tip));
        ShapeChildren(d, d1);
        FollowShape(d1, c, tip, n);
        assert d2[c] == d1[c] && d2[parent] == d[parent];
      }
      ShapeChildren(d, d2);
      FollowKidsShape(d2, parent, kids[1..], tip, n);
      FollowKidsPlaces(d2, parent, kids[1..], tip, n);
      assert FollowKids(d, parent, kids, tip, n) == FollowKids(d2, parent, kids[1..], tip, n);
      forall x | x in kids && x in d
        ensures var r := FollowKids(d, parent, kids, tip, n);
          (r[x].x, r[x].y) == AttachPoint(d[parent], d[x].parentAttachmentPoint, tip)
      {
        if x != c {
          assert x in kids[1..];
          ShapeAt(d, d2, x);
          assert d2[x].parentAttachmentPoint == Frame(d2[x]).parentAttachmentPoint;
        }
      }
    }
  }

  /** `_update_child_bone_positions` leaves the bone itself alone and puts
      each of its children on its attachment point, when the children
      lists below form a tree. */
  lemma FollowPlacesChildren(d: Bones, name: string, tip: EndPoint, n: nat)
    requires n > 0 && name in d
    requires name !in Reach(Children(d), name, n)
    requires Untangled(Children(d), d[name].children, n - 1)
    ensures var r := Follow(d, name, tip, n);
      && r[name] == d[name]
      && forall c :: c in d[name].children && c in d ==>
           (r[c].x, r[c].y) == AttachPoint(d[name], d[c].parentAttachmentPoint, tip)
  {
    FollowKidsPlaces(d, name, d[name].children, tip, n - 1);
  }

  // ----- `_update_bone_attachment_position` ------------------------------------

  /** The bone moves onto its parent's attachment point and only it and
      its subtree move; a bone without a parent bone stays put. */
  lemma ReattachPlaces(d: Bones, name: string, tip: EndPoint, n: nat)
    ensures var r := Reattach(d, name, tip, n);
      && SameShape(d, r)
      && (forall k :: k in d && k != name && k !in Reach(Children(d), name, n) ==> r[k] == d[k])
      && (name in d && IsSet(d[name].parent) && d[name].parent.value in d ==>
            var p := d[name].parent.value;
            p != name && p !in Reach(Children(d), name, n) && name !in Reach(Children(d), name, n) ==>
              r[p] == d[p]
              && (r[name].x, r[name].y) == AttachPoint(d[p], d[name].parentAttachmentPoint, tip))
      && (name !in d || !IsSet(d[name].parent) || d[name].parent.value !in d ==> r == d)
  {
    if name in d && IsSet(d[name].parent) && d[name].parent.value in d {
      var p := d[name].parent.value;
      var d1 := d[name := Placed(d[name], d[p], tip)];
      ShapeMove(d, name, Placed(d[name], d[p], tip));
      ShapeChildren(d, d1);
      FollowShape(d1, name, tip, n);
    }
  }

  /** Re-attaching reads only the bone's parent and the bone's own
      attachment point: two dictionaries that differ only inside the
      bone's subtree and in the bone's position re-attach alike. */
  lemma ReattachAgree(d: Bones, e: Bones, name: string, tip: EndPoint, n: nat)
    requires SameShape(d, e) && name in d
    requires IsSet(d[name].parent) && d[name].parent.value in d
    requires d[name].parent.value != name && d[name].parent.value !in Reach(Children(d), name, n)
    requires forall k :: k in d && k != name && k !in Reach(Children(d), name, n) ==> d[k] == e[k]
    ensures Reattach(d, name, tip, n) == Reattach(e, name, tip, n)
  {
    var p := d[name].parent.value;
    var reach := Reach(Children(d), name, n);
    var d1 := d[name := Placed(d[name], d[p], tip)];
    var e1 := e[name := Placed(e[name], e[p], tip)];
    assert Reattach(d, name, tip, n) == Follow(d1, name, tip, n)
        && Reattach(e, name, tip, n) == Follow(e1, name, tip, n) by {
      ShapeAt(d, e, name);
      assert e[name].parent == Frame(e[name]).parent;
    }
    assert && SameShape(d1, e1) && d1.Keys == e1.Keys
           && (forall k :: k in d1 && k !in reach - {name} ==> d1[k] == e1[k])
           && Reach(Children(d1), name, n) == reach by {
      PlaceAgree(d, e, name, p, tip, reach + {name});
      assert (reach + {name}) - {name} == reach - {name};
      ShapeChildren(d, d1);
      ShapeChildren(d1, e1);
    }
    var rd, re := Follow(d1, name, tip, n), Follow(e1, name, tip, n);
    assert rd == re by {
      FollowAgree(d1, e1, name, tip, n, reach - {name});
      assert (reach - {name}) - reach == {};
      SameEntries(rd, re);
    }
  }

  /** Replacing a bone by one with the same children keeps the children
      lists. */
  lemma SameChildren(d: Bones, name: string, b: Bone)
    requires name in d && b.children == d[name].children
    ensures Children(d[name := b]) == Children(d)
  {
    assert Children(d[name := b]) == Children(d)[name := b.children];
  }

  /** A dictionary shaped like `d` with one bone replaced, once that bone
      gets back a bone of its old shape, is shaped like `d`. */
  lemma ShapeRestore(d: Bones, r: Bones, name: string, b: Bone, c: Bone)
    requires name in d && SameShape(d[name := b], r) && Frame(c) == Frame(d[name])
    ensures SameShape(r[name := c], d)
  {
    assert Shapes(r[name := c]) == Shapes(r)[name := Frame(c)];
    assert Shapes(d[name := b]) == Shapes(d)[name := Frame(b)];
    assert Shapes(d)[name := Frame(b)][name := Frame(d[name])] == Shapes(d);
  }

  /** Changing a bone (its children and parent kept) and re-attaching it:
      the bone keeps its new shape, only it and its subtree move, and with a
      parent bone outside its subtree it sits on its new attachment point. */
  lemma ReattachChanged(d: Bones, name: string, b: Bone, tip: EndPoint, n: nat)
    requires name in d && b.children == d[name].children && b.parent == d[name].parent
    ensures var r := Reattach(d[name := b], name, tip, n); var reach := Reach(Children(d), name, n);
      && r.Keys == d.Keys && Frame(r[name]) == Frame(b)
      && (forall k :: k in d && k != name && k !in reach ==> r[k] == d[k])
      && (IsSet(b.parent) && b.parent.value in d && b.parent.value != name && b.parent.value !in reach
          && name !in reach ==>
            (r[name].x, r[name].y) == AttachPoint(d[b.parent.value], b.parentAttachmentPoint, tip))
      && (!IsSet(b.parent) || b.parent.value !in d ==> r == d[name := b])
  {
    var f := d[name := b];
    SameChildren(d, name, b);
    ReattachPlaces(f, name, tip, n);
    ShapeAt(f, Reattach(f, name, tip, n), name);
  }

  /** Changing a bone (its children and parent kept) and re-attaching it,
      then putting back a bone of the original shape and re-attaching
      again, ends where re-attaching the original ends: the first
      re-attachment leaves no trace. */
  lemma ReattachTwice(d: Bones, name: string, b: Bone, c: Bone, tip: EndPoint, n: nat)
    requires name in d && IsSet(d[name].parent) && d[name].parent.value in d
    requires d[name].parent.value != name && d[name].parent.value !in Reach(Children(d), name, n)
    requires b.children == d[name].children && b.parent == d[name].parent
    requires Frame(c) == Frame(d[name])
    ensures var r := Reattach(d[name := b], name, tip, n);
      Reattach(r[name := c], name, tip, n) == Reattach(d, name, tip, n)
  {
    var reach := Reach(Children(d), name, n);
    var r := Reattach(d[name := b], name, tip, n);
    var r1 := r[name := c];
    assert SameShape(d[name := b], r) && forall k :: k in d && k != name && k !in reach ==> r1[k] == d[k]
    by {
      SameChildren(d, name, b);
      ReattachPlaces(d[name := b], name, tip, n);
    }
    assert SameShape(r1, d) && r1[name].parent == d[name].parent && Reach(Children(r1), name, n) == reach
    by {
      ShapeRestore(d, r, name, b, c);
      assert r1[name].parent == Frame(c).parent;
      ShapeChildren(r1, d);
    }
    ReattachAgree(r1, d, name, tip, n);
  }

  lemma SameEntries(a: Bones, b: Bones)
    requires a.Keys == b.Keys && forall k :: k in a ==> a[k] == b[k]
    ensures a == b
  {
  }
}
