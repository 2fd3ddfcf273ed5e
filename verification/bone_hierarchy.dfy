/** The bone hierarchy: every `Bone` names its parent (`Bone.parent`) and
    lists its children (`Bone.children`). This module holds what the
    editors and the pygame loader share about the parent links: when a
    chain of links ends, the descendant test of the bone editor
    (`_is_descendant` in pyspine/PySpine_BoneEditor.py and
    pyspine/old_pyspine/Editor_BoneSheet.py), and the drag-and-drop
    re-parenting of the hierarchy panel. */
module BoneHierarchy {
  import opened Types

  /** Following parent links from `name` ends, within `n` steps, at a bone
      without a set parent or at a name that is not a bone. Every walk up
      the hierarchy in the source (`process_bone`, `_is_descendant`) stops
      only on such chains. */
  ghost predicate Grounded(bones: map<string, Bone>, name: string, n: nat)
    decreases n
  {
    name !in bones || !IsSet(bones[name].parent) ||
    (n > 0 && Grounded(bones, bones[name].parent.value, n - 1))
  }

  /** `c` is `cur` or one of its ancestors, at most `k` links up. */
  ghost predicate Ancestor(bones: map<string, Bone>, c: string, cur: string, k: nat)
    decreases k
  {
    c == cur ||
    (k > 0 && cur in bones && IsSet(bones[cur].parent) && Ancestor(bones, c, bones[cur].parent.value, k - 1))
  }

  lemma {:induction false} GroundedMono(bones: map<string, Bone>, name: string, n: nat, m: nat)
    requires Grounded(bones, name, n) && n <= m
    ensures Grounded(bones, name, m)
    decreases n
  {
    if name in bones && IsSet(bones[name].parent) {
      GroundedMono(bones, bones[name].parent.value, n - 1, m - 1);
    }
  }

  /** Groundedness is inherited by every ancestor. */
  lemma {:induction false} AncestorGrounded(bones: map<string, Bone>, c: string, cur: string, k: nat, n: nat)
    requires Ancestor(bones, c, cur, k) && Grounded(bones, cur, n)
    ensures Grounded(bones, c, n)
    decreases k
  {
    if c != cur {
      var p := bones[cur].parent.value;
      AncestorGrounded(bones, c, p, k - 1, n - 1);
      GroundedMono(bones, c, n - 1, n);
    }
  }

  /** A grounded bone is never an ancestor of its own parent: the parent
      chain has no cycle through it. */
  lemma {:induction false} GroundedNoCycle(bones: map<string, Bone>, name: string, k: nat, n: nat)
    requires name in bones && IsSet(bones[name].parent)
    requires Ancestor(bones, name, bones[name].parent.value, k)
    requires Grounded(bones, name, n)
    ensures false
    decreases n
  {
    var p := bones[name].parent.value;
    AncestorGrounded(bones, name, p, k, n - 1);
    GroundedNoCycle(bones, name, k, n - 1);
  }

  /** Every bone's parent chain ends within `n` links: the links form no
      cycle. */
  ghost predicate Acyclic(bones: Bones, n: nat) {
    forall k :: k in bones ==> Grounded(bones, k, n)
  }

  // ----- The descendant test --------------------------------------------------

  /** `x` is a bone whose parent link is set and names `a`. */
  predicate ParentIs(bones: Bones, x: string, a: string) {
    x in bones && IsSet(bones[x].parent) && bones[x].parent.value == a
  }

  /** `a` is a strict ancestor of `d`: a bone on the chain from `d` up
      (`d` included) names `a` as its parent. `a` itself need not be a
      bone. */
  ghost predicate Below(bones: Bones, d: string, a: string) {
    exists x, k: nat :: Ancestor(bones, x, d, k) && ParentIs(bones, x, a)
  }

  /** A name that is not a bone is below nothing. */
  lemma NotBelowMissing(bones: Bones, d: string, a: string)
    requires d !in bones
    ensures !Below(bones, d, a)
  {
  }

  /** One link of the walk: `d` is below `a` when its own parent is `a` or
      its parent is below `a`. */
  lemma BelowStep(bones: Bones, d: string, a: string)
    requires d in bones
    ensures Below(bones, d, a) <==>
      ParentIs(bones, d, a) || (IsSet(bones[d].parent) && Below(bones, bones[d].parent.value, a))
  {
    if Below(bones, d, a) {
      var x, k: nat :| Ancestor(bones, x, d, k) && ParentIs(bones, x, a);
      if x != d {
        assert Ancestor(bones, x, bones[d].parent.value, k - 1);
      }
    }
    if ParentIs(bones, d, a) {
      assert Ancestor(bones, d, d, 0);
    }
    if IsSet(bones[d].parent) && Below(bones, bones[d].parent.value, a) {
      var x, k: nat :| Ancestor(bones, x, bones[d].parent.value, k) && ParentIs(bones, x, a);
      assert Ancestor(bones, x, d, k + 1);
    }
  }

  /** Every strict ancestor on the chain is one that `Below` finds. */
  lemma {:induction false} AncestorBelow(bones: Bones, x: string, d: string, k: nat)
    requires Ancestor(bones, x, d, k) && x != d
    ensures Below(bones, d, x)
    decreases k
  {
    var p := bones[d].parent.value;
    BelowStep(bones, d, x);
    if x != p {
      AncestorBelow(bones, x, p, k - 1);
    }
  }

  /** `_is_descendant(potential_descendant, ancestor)`: false for a name
      that is not a bone; otherwise walks up the parent links, answering
      true at the first link that names `ancestor` and false where a link
      is unset or names no bone. The walk ends because the chain does. */
  method IsDescendant(bones: Bones, d: string, a: string, ghost n: nat) returns (r: bool)
    requires Grounded(bones, d, n)
    ensures r <==> Below(bones, d, a)
  {
    if d !in bones {
      NotBelowMissing(bones, d, a);
      return false;
    }
    var current := d;
    ghost var m := n;
    while IsSet(bones[current].parent)
      invariant current in bones && Grounded(bones, current, m)
      invariant Below(bones, d, a) <==> Below(bones, current, a)
      decreases m
    {
      BelowStep(bones, current, a);
      var p := bones[current].parent.value;
      if p == a {
        return true;
      }
      if p !in bones {
        NotBelowMissing(bones, p, a);
        return false;
      }
      current := p;
      m := m - 1;
    }
    BelowStep(bones, current, a);
    return false;
  }

  // ----- Re-linking one bone --------------------------------------------------

  /** `b` has the bones of `a`, with the same parent links except `c`'s. */
  ghost predicate SameLinksExcept(a: Bones, b: Bones, c: string) {
    b.Keys == a.Keys && forall k :: k in b && k != c ==> b[k].parent == a[k].parent
  }

  /** Parent links alone decide whether a walk up ends. */
  lemma {:induction false} SameLinksGrounded(a: Bones, b: Bones, cur: string, n: nat)
    requires Grounded(a, cur, n)
    requires b.Keys == a.Keys && forall k :: k in b ==> b[k].parent == a[k].parent
    ensures Grounded(b, cur, n)
    decreases n
  {
    if cur in a && IsSet(a[cur].parent) {
      SameLinksGrounded(a, b, a[cur].parent.value, n - 1);
    }
  }

  lemma SameLinksAcyclic(a: Bones, b: Bones, n: nat)
    requires Acyclic(a, n)
    requires b.Keys == a.Keys && forall k :: k in b ==> b[k].parent == a[k].parent
    ensures Acyclic(b, n)
  {
    forall k | k in b ensures Grounded(b, k, n) {
      SameLinksGrounded(a, b, k, n);
    }
  }

  /** A walk that never meets `c` is the same walk after `c` is re-linked. */
  lemma {:induction false} AvoidingWalk(a: Bones, b: Bones, c: string, cur: string, n: nat)
    requires Grounded(a, cur, n) && SameLinksExcept(a, b, c) && !Ancestor(a, c, cur, n)
    ensures Grounded(b, cur, n)
    decreases n
  {
    if cur in b && IsSet(b[cur].parent) {
      AvoidingWalk(a, b, c, a[cur].parent.value, n - 1);
    }
  }

  /** A walk that meets `c` goes on from `c`'s new parent. */
  lemma {:induction false} WalkThroughLink(a: Bones, b: Bones, c: string, cur: string, n: nat, m: nat)
    requires Grounded(a, cur, n) && SameLinksExcept(a, b, c) && Grounded(b, c, m)
    ensures Grounded(b, cur, n + m)
    decreases n
  {
    if cur in b && IsSet(b[cur].parent) {
      if cur == c {
        GroundedMono(b, c, m, n + m);
      } else {
        WalkThroughLink(a, b, c, a[cur].parent.value, n - 1, m);
      }
    }
  }

  /** Giving `c` a parent whose chain does not pass through `c` keeps every
      chain finite (at most `2n + 1` links). */
  lemma LinkKeepsAcyclic(a: Bones, b: Bones, c: string, n: nat)
    requires Acyclic(a, n) && SameLinksExcept(a, b, c) && c in b
    requires IsSet(b[c].parent) ==> !Ancestor(a, c, b[c].parent.value, n)
    ensures Acyclic(b, 2 * n + 1)
  {
    if IsSet(b[c].parent) {
      var p := b[c].parent.value;
      assert Grounded(a, p, n);
      AvoidingWalk(a, b, c, p, n);
    }
    assert Grounded(b, c, n + 1);
    forall k | k in b
      ensures Grounded(b, k, 2 * n + 1)
    {
      WalkThroughLink(a, b, c, k, n, n + 1);
    }
  }

  // ----- Drag and drop in the hierarchy panel -----------------------------------

  /** `list.index(x)` for an `x` in the list: its first position. */
  function IndexOf(s: seq<string>, x: string): (i: nat)
    requires x in s
    ensures i < |s| && s[i] == x && x !in s[..i]
  {
    if s[0] == x then 0 else
      assert s[1..][..IndexOf(s[1..], x)] == s[1..IndexOf(s[1..], x) + 1];
      1 + IndexOf(s[1..], x)
  }

  /** The dragged bone leaves the `children` list of its current parent,
      when that parent is a bone. */
  function Detach(bones: Bones, drag: string): (r: Bones)
    requires drag in bones
    ensures r.Keys == bones.Keys
    ensures forall k :: k in r ==> r[k].parent == bones[k].parent
  {
    var p := bones[drag].parent;
    if IsSet(p) && p.value in bones then
      bones[p.value := bones[p.value].(children := RemoveFirst(bones[p.value].children, drag))]
    else bones
  }

  /** A drop in the "child" position: the dragged bone takes the target as
      parent and is appended to the target's children unless listed. */
  function DropAsChild(bones: Bones, drag: string, target: string): (r: Bones)
    requires drag in bones && target in bones
    ensures SameLinksExcept(bones, r, drag)
    ensures r[drag].parent == Some(target) && drag in r[target].children
  {
    var b1 := Detach(bones, drag);
    var b2 := b1[drag := b1[drag].(parent := Some(target))];
    b2[target := b2[target].(children := AppendOnce(b2[target].children, drag))]
  }

  /** Where a sibling drop puts the dragged bone in its new parent's list:
      just before or just after the target, or last when the target is not
      listed there. */
  function InsertBeside(s: seq<string>, drag: string, target: string, after: bool): (r: seq<string>)
    ensures |r| == |s| + 1 && drag in r
    ensures target in s ==> r == s[..IndexOf(s, target) + (if after then 1 else 0)] + [drag] + s[IndexOf(s, target) + (if after then 1 else 0)..]
    ensures target !in s ==> r == s + [drag]
  {
    if target in s then PyInsert(s, IndexOf(s, target) + (if after then 1 else 0), drag) else s + [drag]
  }

  /** A drop in the "before" or "after" position: the dragged bone takes the
      target's parent (possibly none) and is inserted next to the target in
      that parent's list when the parent is a bone. */
  function DropBeside(bones: Bones, drag: string, target: string, after: bool): (r: Bones)
    requires drag in bones && target in bones
    ensures SameLinksExcept(bones, r, drag)
    ensures r[drag].parent == bones[target].parent
    ensures var tp := bones[target].parent; IsSet(tp) && tp.value in bones ==> drag in r[tp.value].children
  {
    var b1 := Detach(bones, drag);
    var tp := b1[target].parent;
    var b2 := b1[drag := b1[drag].(parent := tp)];
    if IsSet(tp) && tp.value in b2 then
      b2[tp.value := b2[tp.value].(children := InsertBeside(b2[tp.value].children, drag, target, after))]
    else b2
  }

  /** A drop target that is neither the dragged bone nor below it keeps the
      hierarchy free of cycles, in every drop position. */
  lemma DropKeepsAcyclic(bones: Bones, drag: string, target: string, after: bool, n: nat)
    requires Acyclic(bones, n) && drag in bones && target in bones
    requires target != drag && !Below(bones, target, drag)
    ensures Acyclic(DropAsChild(bones, drag, target), 2 * n + 1)
    ensures Acyclic(DropBeside(bones, drag, target, after), 2 * n + 1)
  {
    if Ancestor(bones, drag, target, n) {
      AncestorBelow(bones, drag, target, n);
    }
    LinkKeepsAcyclic(bones, DropAsChild(bones, drag, target), drag, n);
    var tp := bones[target].parent;
    if IsSet(tp) && Ancestor(bones, drag, tp.value, n) {
      assert Ancestor(bones, drag, target, n + 1);
      AncestorBelow(bones, drag, target, n + 1);
    }
    LinkKeepsAcyclic(bones, DropBeside(bones, drag, target, after), drag, n);
  }
}
