/** The scene of placed sprite instances in pyspine/boneless_editor.py
    (`BonelessSceneEditor`) and in its predecessor
    pyspine/old_pyspine/boneless_editor.py (`BonelessAnimEditor`).

    Instances form a forest through `parent_id`; every instance also lists
    its children. Re-parenting moves the child between `children` lists and
    is refused when it would close a cycle. Every change is also recorded
    as a command on `data_objects['instances']` of the shared
    `UniversalEditor` core, a dictionary separate from the live
    `instances`, so undo and redo never move anything in the live scene.

    World positions come from trigonometry over the parent chain and are
    passed in as parameters. */
module Scene {
  import opened Types
  import Names
  import UndoRedo
  import UE = UniversalEditor
  import BonelessTrack

  datatype Attachment = Origin | Endpoint

  /** `SceneInstance` (and the identical `AnimInstance` of the old editor).
      `layer` uses the three values BEHIND/MIDDLE/FRONT of `InstanceLayer`. */
  datatype SceneInstance = SceneInstance(
    id: string, spriteName: string,
    x: real := 0.0, y: real := 0.0, rotation: real := 0.0,
    scaleX: real := 1.0, scaleY: real := 1.0,
    parentId: Option<string> := None, parentAttachment: Attachment := Origin,
    children: seq<string> := [], layer: BoneLayer := Middle, layerOrder: int := 0,
    opacity: real := 1.0, visible: bool := true)

  type Instances = map<string, SceneInstance>
  type Rec = UE.Record<SceneInstance>

  const InstancesType := "instances"
  const InstancePrefix := "inst_"

  // ----- the parent chain --------------------------------------------------

  /** Following `parent_id` from `cur` stops (at an unset link or at an id
      that is not an instance) after visiting at most `n` instances. */
  ghost predicate ReachesRoot(insts: Instances, cur: Option<string>, n: nat)
    decreases n
  {
    !IsSet(cur) || cur.value !in insts
    || (n > 0 && ReachesRoot(insts, insts[cur.value].parentId, n - 1))
  }

  /** `c` is `cur` or one of the first `n` ids reached from it by
      `parent_id`. */
  ghost predicate OnChain(insts: Instances, c: string, cur: Option<string>, n: nat)
    decreases n
  {
    IsSet(cur) && (cur.value == c || (cur.value in insts && n > 0 && OnChain(insts, c, insts[cur.value].parentId, n - 1)))
  }

  /** Every parent chain ends within `n` steps: the links form no cycle. */
  ghost predicate Rooted(insts: Instances, n: nat) {
    forall id :: id in insts ==> ReachesRoot(insts, Some(id), n)
  }

  /** `would_create_cycle(child, potential_parent)`: walks up from the
      proposed parent. The walk ends because the chain from the proposed
      parent does. */
  method WouldCreateCycle(insts: Instances, child: string, parent: string, ghost n: nat) returns (b: bool)
    requires ReachesRoot(insts, Some(parent), n)
    ensures b <==> OnChain(insts, child, Some(parent), n)
  {
    var current: Option<string> := Some(parent);
    ghost var k := n;
    while IsSet(current)
      invariant ReachesRoot(insts, current, k)
      invariant OnChain(insts, child, Some(parent), n) <==> OnChain(insts, child, current, k)
      decreases k, if IsSet(current) then 1 else 0
    {
      if current.value == child {
        return true;
      }
      if current.value in insts {
        current := insts[current.value].parentId;
        k := k - 1;
      } else {
        current := None;
      }
    }
    return false;
  }

  lemma {:induction false} ReachesRootMono(insts: Instances, cur: Option<string>, n: nat, m: nat)
    requires ReachesRoot(insts, cur, n) && n <= m
    ensures ReachesRoot(insts, cur, m)
    decreases n
  {
    if IsSet(cur) && cur.value in insts {
      ReachesRootMono(insts, insts[cur.value].parentId, n - 1, m - 1);
    }
  }

  /** `b` keeps `a`'s parent links, except that some are cleared and some
      instances are gone. */
  ghost predicate FewerLinks(a: Instances, b: Instances) {
    b.Keys <= a.Keys && forall k :: k in b ==> b[k].parentId == a[k].parentId || !IsSet(b[k].parentId)
  }

  /** `b` keeps the parent link of every instance of `a` but `c`. */
  ghost predicate SameLinksExcept(a: Instances, b: Instances, c: string) {
    b.Keys <= a.Keys && forall k :: k in b && k != c ==> b[k].parentId == a[k].parentId
  }

  lemma {:induction false} FewerLinksReach(a: Instances, b: Instances, cur: Option<string>, n: nat)
    requires ReachesRoot(a, cur, n) && FewerLinks(a, b)
    ensures ReachesRoot(b, cur, n)
    decreases n
  {
    if IsSet(cur) && cur.value in b && IsSet(b[cur.value].parentId) {
      FewerLinksReach(a, b, a[cur.value].parentId, n - 1);
    }
  }

  /** Clearing links and removing instances never makes a cycle. */
  lemma FewerLinksRooted(a: Instances, b: Instances, n: nat)
    requires Rooted(a, n) && FewerLinks(a, b)
    ensures Rooted(b, n)
  {
    forall id | id in b
      ensures ReachesRoot(b, Some(id), n)
    {
      FewerLinksReach(a, b, Some(id), n);
    }
  }

  /** A walk that never meets `c` is the same walk after `c` is re-linked. */
  lemma {:induction false} AvoidingWalk(a: Instances, b: Instances, c: string, cur: Option<string>, n: nat)
    requires ReachesRoot(a, cur, n) && SameLinksExcept(a, b, c) && !OnChain(a, c, cur, n)
    ensures ReachesRoot(b, cur, n)
    decreases n
  {
    if IsSet(cur) && cur.value in b {
      AvoidingWalk(a, b, c, a[cur.value].parentId, n - 1);
    }
  }

  /** A walk that meets `c` continues from `c`'s new parent. */
  lemma {:induction false} WalkThroughLink(a: Instances, b: Instances, c: string, p: string, cur: Option<string>, n: nat, m: nat)
    requires ReachesRoot(a, cur, n) && SameLinksExcept(a, b, c)
    requires c in b && b[c].parentId == Some(p) && ReachesRoot(b, Some(p), m)
    ensures ReachesRoot(b, cur, n + m + 1)
    decreases n
  {
    if IsSet(cur) && cur.value in b {
      if cur.value == c {
        ReachesRootMono(b, Some(p), m, n + m);
      } else {
        WalkThroughLink(a, b, c, p, a[cur.value].parentId, n - 1, m);
      }
    }
  }

  /** Linking `c` under `p` when `would_create_cycle(c, p)` is false keeps
      every parent chain finite (at most `2n + 1` long). */
  lemma LinkKeepsRooted(a: Instances, b: Instances, c: string, p: string, n: nat)
    requires Rooted(a, n) && SameLinksExcept(a, b, c)
    requires c in b && b[c].parentId == Some(p)
    requires !OnChain(a, c, Some(p), n)
    ensures Rooted(b, 2 * n + 1)
  {
    assert ReachesRoot(a, Some(p), n);
    AvoidingWalk(a, b, c, Some(p), n);
    forall id | id in b
      ensures ReachesRoot(b, Some(id), 2 * n + 1)
    {
      WalkThroughLink(a, b, c, p, Some(id), n, n);
    }
  }

  /** Two instances that name each other as parent: no walk from either
      ever ends. */
  lemma {:induction false} MutualParentsNeverRoot(insts: Instances, u: string, v: string, n: nat)
    requires u in insts && v in insts && u != "" && v != ""
    requires insts[u].parentId == Some(v) && insts[v].parentId == Some(u)
    ensures !ReachesRoot(insts, Some(u), n) && !ReachesRoot(insts, Some(v), n)
    decreases n
  {
    if n > 0 {
      MutualParentsNeverRoot(insts, u, v, n - 1);
    }
  }

  // ----- children lists ------------------------------------------------------

  /** `insts[k].children` holds each entry once, and only instances whose
      `parent_id` is `k`. */
  ghost predicate ListMirrors(insts: Instances, k: string)
    requires k in insts
  {
    NoDup(insts[k].children)
    && forall x :: x in insts[k].children ==> x in insts && insts[x].parentId == Some(k)
  }

  /** An instance whose parent is an instance is on that parent's list. */
  ghost predicate Listed(insts: Instances, x: string)
    requires x in insts
  {
    insts[x].parentId.Some? && insts[x].parentId.value in insts ==> x in insts[insts[x].parentId.value].children
  }

  /** Every `children` list holds each of its entries once, and exactly the
      instances whose `parent_id` names its owner. */
  ghost predicate ChildrenMirrorLinks(insts: Instances) {
    (forall k :: k in insts ==> ListMirrors(insts, k))
    && (forall x :: x in insts ==> Listed(insts, x))
  }

  /** The parent `child` currently hangs under is set and is an instance. */
  predicate HasParentIn(insts: Instances, child: string)
    requires child in insts
  {
    IsSet(insts[child].parentId) && insts[child].parentId.value in insts
  }

  /** A `children` list that may lose `c` (its first occurrence, as
      `list.remove`) and then may gain `c` (appended when absent). */
  function ChangedList(s: seq<string>, c: string, dropped: bool, added: bool): seq<string> {
    var s1 := if dropped then RemoveFirst(s, c) else s;
    if added then AppendOnce(s1, c) else s1
  }

  lemma ChangedListMembers(s: seq<string>, c: string, dropped: bool, added: bool)
    requires NoDup(s)
    ensures NoDup(ChangedList(s, c, dropped, added))
    ensures forall x :: x in ChangedList(s, c, dropped, added) <==> (x in s && !(dropped && x == c)) || (added && x == c)
  {
    var s1 := if dropped then RemoveFirst(s, c) else s;
    if dropped {
      RemoveFirstNoDup(s, c);
    }
    if added {
      AppendOnceNoDup(s1, c);
      AppendOnceMembers(s1, c);
    }
  }

  /** `if inst.parent_id and inst.parent_id in self.instances:
      self.instances[inst.parent_id].children.remove(child)` (a
      `ValueError` is swallowed): only that one list changes. */
  function Detach(insts: Instances, child: string): (r: Instances)
    requires child in insts
    ensures r.Keys == insts.Keys
    ensures forall k :: k in insts ==> r[k] == insts[k].(children := r[k].children)
  {
    map k | k in insts :: insts[k].(children := ChangedList(insts[k].children, child,
                                    HasParentIn(insts, child) && insts[child].parentId.value == k, false))
  }

  /** The re-parenting core shared by `set_parent` (old editor),
      `reparent_to_attachment_point`, `set_parent_at_attachment_point`,
      `complete_instance_snap`, `reparent_to_world` and
      `unparent_for_transform`: the child leaves its old parent's list
      (when that parent is set and an instance), takes the new link and
      attachment, and is appended once to the new parent's list (when that
      is set and an instance). Each list is the result of those steps. */
  function Relink(insts: Instances, child: string, parent: Option<string>, att: Attachment): (r: Instances)
    requires child in insts
    ensures r.Keys == insts.Keys
    ensures r[child].parentId == parent && r[child].parentAttachment == att
    ensures SameLinksExcept(insts, r, child)
    ensures !IsSet(parent) ==> FewerLinks(insts, r)
    ensures IsSet(parent) && parent.value in insts ==> child in r[parent.value].children
  {
    var r := map k | k in insts ::
      var i := insts[k].(children := ChangedList(insts[k].children, child,
                                                 HasParentIn(insts, child) && insts[child].parentId.value == k,
                                                 IsSet(parent) && parent.value == k));
      if k == child then i.(parentId := parent, parentAttachment := att) else i;
    assert IsSet(parent) && parent.value in insts ==> child in r[parent.value].children by {
      if IsSet(parent) && parent.value in insts {
        var p := parent.value;
        var dropped := HasParentIn(insts, child) && insts[child].parentId.value == p;
        var s1 := if dropped then RemoveFirst(insts[p].children, child) else insts[p].children;
        assert r[p].children == AppendOnce(s1, child);
      }
    }
    r
  }

  /** Re-parenting keeps the children lists in step with the links. */
  lemma RelinkMirrors(insts: Instances, child: string, parent: Option<string>, att: Attachment)
    requires child in insts && "" !in insts && ChildrenMirrorLinks(insts)
    ensures ChildrenMirrorLinks(Relink(insts, child, parent, att))
  {
    var r := Relink(insts, child, parent, att);
    forall k | k in r
      ensures ListMirrors(r, k)
    {
      assert ListMirrors(insts, k);
      ChangedListMembers(insts[k].children, child, HasParentIn(insts, child) && insts[child].parentId.value == k,
                         IsSet(parent) && parent.value == k);
      forall x | x in r[k].children
        ensures x in r && r[x].parentId == Some(k)
      {
        if x in insts[k].children && x == child {
          assert insts[child].parentId == Some(k);
          assert HasParentIn(insts, child);
        }
      }
    }
    forall x | x in r
      ensures Listed(r, x)
    {
      if r[x].parentId.Some? && r[x].parentId.value in r {
        var q := r[x].parentId.value;
        assert ListMirrors(insts, q);
        ChangedListMembers(insts[q].children, child, HasParentIn(insts, child) && insts[child].parentId.value == q,
                           IsSet(parent) && parent.value == q);
        if x != child {
          assert Listed(insts, x);
        }
      }
    }
  }

  /** Every set `parent_id` names an instance (deleting orphans the
      children, so no link is left dangling). */
  ghost predicate LinksClosed(insts: Instances) {
    forall x :: x in insts && IsSet(insts[x].parentId) ==> insts[x].parentId.value in insts
  }

  lemma RelinkClosed(insts: Instances, child: string, parent: Option<string>, att: Attachment)
    requires child in insts && LinksClosed(insts)
    requires !IsSet(parent) || parent.value in insts
    ensures LinksClosed(Relink(insts, child, parent, att))
  {
  }

  /** An edit that keeps every link and every list keeps the structure. */
  lemma UpdateKeepsStructure(insts: Instances, id: string, after: SceneInstance, n: nat)
    requires id in insts && after.parentId == insts[id].parentId && after.children == insts[id].children
    requires ChildrenMirrorLinks(insts) && LinksClosed(insts) && Rooted(insts, n)
    ensures ChildrenMirrorLinks(insts[id := after]) && LinksClosed(insts[id := after]) && Rooted(insts[id := after], n)
  {
    var r := insts[id := after];
    assert FewerLinks(insts, r);
    FewerLinksRooted(insts, r, n);
    forall k | k in r
      ensures ListMirrors(r, k)
    {
      assert ListMirrors(insts, k);
    }
    forall k | k in r
      ensures Listed(r, k)
    {
      assert Listed(insts, k);
    }
  }

  lemma {:induction false} AddRootReach(a: Instances, inst: SceneInstance, cur: Option<string>, n: nat)
    requires inst.id !in a && inst.parentId.None? && ReachesRoot(a, cur, n)
    ensures ReachesRoot(a[inst.id := inst], cur, n + 1)
    decreases n
  {
    if IsSet(cur) && cur.value in a {
      AddRootReach(a, inst, a[cur.value].parentId, n - 1);
    }
  }

  /** A new instance with no parent can make chains one step longer (a
      link that named its id now reaches it). */
  lemma AddRootRooted(insts: Instances, inst: SceneInstance, n: nat)
    requires inst.id !in insts && inst.parentId.None? && Rooted(insts, n)
    ensures Rooted(insts[inst.id := inst], n + 1)
  {
    var r := insts[inst.id := inst];
    forall id | id in r
      ensures ReachesRoot(r, Some(id), n + 1)
    {
      if id != inst.id {
        AddRootReach(insts, inst, Some(id), n);
      }
    }
  }

  /** A new instance with no parent and no children keeps the children
      lists in step with the links. */
  lemma AddRoot(insts: Instances, inst: SceneInstance)
    requires inst.id !in insts && inst.id != "" && inst.parentId.None? && inst.children == []
    requires ChildrenMirrorLinks(insts) && LinksClosed(insts)
    ensures ChildrenMirrorLinks(insts[inst.id := inst]) && LinksClosed(insts[inst.id := inst])
  {
    var r := insts[inst.id := inst];
    forall k | k in r
      ensures ListMirrors(r, k)
    {
      if k != inst.id {
        assert ListMirrors(insts, k);
      }
    }
    forall k | k in r
      ensures Listed(r, k)
    {
      if k != inst.id {
        assert Listed(insts, k);
      }
    }
  }

  /** `child.x, child.y = ...` after the link is made. */
  function MoveTo(insts: Instances, id: string, x: real, y: real): (r: Instances)
    requires id in insts
    ensures r.Keys == insts.Keys && r[id] == insts[id].(x := x, y := y)
    ensures forall k :: k in insts && k != id ==> r[k] == insts[k]
  {
    insts[id := insts[id].(x := x, y := y)]
  }

  lemma MoveKeepsStructure(insts: Instances, id: string, x: real, y: real, n: nat)
    requires id in insts
    ensures ChildrenMirrorLinks(insts) ==> ChildrenMirrorLinks(MoveTo(insts, id, x, y))
    ensures Rooted(insts, n) ==> Rooted(MoveTo(insts, id, x, y), n)
    ensures LinksClosed(insts) ==> LinksClosed(MoveTo(insts, id, x, y))
  {
    var r := MoveTo(insts, id, x, y);
    assert FewerLinks(insts, r);
    if Rooted(insts, n) {
      FewerLinksRooted(insts, r, n);
    }
    if ChildrenMirrorLinks(insts) {
      forall k | k in r
        ensures ListMirrors(r, k)
      {
        assert ListMirrors(insts, k);
      }
      forall k | k in r
        ensures Listed(r, k)
      {
        assert Listed(insts, k);
      }
    }
  }

  /** `reparent_to_world` / `unparent_for_transform` on the values: the
      child becomes a root, is on no list, and the structure is kept. */
  lemma UnlinkKeepsStructure(insts: Instances, child: string, x: real, y: real, n: nat, next: nat)
    requires child in insts && IdsBelow(insts, next)
    requires ChildrenMirrorLinks(insts) && LinksClosed(insts) && Rooted(insts, n)
    ensures var r := MoveTo(Relink(insts, child, None, Origin), child, x, y);
      ChildrenMirrorLinks(r) && LinksClosed(r) && Rooted(r, n) && IdsBelow(r, next)
      && r[child].parentId.None? && r[child].parentAttachment == Origin
      && forall k :: k in r ==> child !in r[k].children
  {
    EmptyIdAbsent(insts, next);
    RelinkMirrors(insts, child, None, Origin);
    RelinkClosed(insts, child, None, Origin);
    var r := Relink(insts, child, None, Origin);
    FewerLinksRooted(insts, r, n);
    MoveKeepsStructure(r, child, x, y, n);
    var q := MoveTo(r, child, x, y);
    forall k | k in q
      ensures child !in q[k].children
    {
      assert ListMirrors(q, k);
    }
  }

  /** The checked link on the values: the structure is kept, with chains
      at most `2n + 1` long. */
  lemma LinkKeepsStructure(insts: Instances, child: string, parent: string, att: Attachment, x: real, y: real, n: nat, next: nat)
    requires child in insts && parent in insts && IdsBelow(insts, next)
    requires ChildrenMirrorLinks(insts) && LinksClosed(insts) && Rooted(insts, n)
    requires !OnChain(insts, child, Some(parent), n)
    ensures var r := MoveTo(Relink(insts, child, Some(parent), att), child, x, y);
      ChildrenMirrorLinks(r) && LinksClosed(r) && Rooted(r, 2 * n + 1) && IdsBelow(r, next)
      && child in r[parent].children
  {
    EmptyIdAbsent(insts, next);
    RelinkMirrors(insts, child, Some(parent), att);
    RelinkClosed(insts, child, Some(parent), att);
    var l := Relink(insts, child, Some(parent), att);
    LinkKeepsRooted(insts, l, child, parent, n);
    MoveKeepsStructure(l, child, x, y, 2 * n + 1);
  }

  /** Each listed child in turn becomes a root with ORIGIN attachment. */
  function Orphan(insts: Instances, kids: seq<string>): (r: Instances)
    ensures r.Keys == insts.Keys
    ensures forall k :: k in insts && k in kids ==> r[k] == insts[k].(parentId := None, parentAttachment := Origin)
    ensures forall k :: k in insts && k !in kids ==> r[k] == insts[k]
  {
    if kids == [] then insts
    else
      var m := Orphan(insts, kids[..|kids| - 1]);
      var k := kids[|kids| - 1];
      assert forall j :: j in kids <==> j in kids[..|kids| - 1] || j == k by {
        assert kids == kids[..|kids| - 1] + [k];
      }
      if k in m then m[k := m[k].(parentId := None, parentAttachment := Origin)] else m
  }

  /** The loop of `delete_selected` over the deleted instance's children
      list: each one still present loses its parent. */
  method OrphanKids(insts: Instances, kids: seq<string>) returns (m: Instances)
    ensures m == Orphan(insts, kids)
  {
    m := insts;
    var i := 0;
    while i < |kids|
      invariant 0 <= i <= |kids|
      invariant m == Orphan(insts, kids[..i])
    {
      assert kids[..i + 1][..i] == kids[..i];
      if kids[i] in m {
        m := m[kids[i] := m[kids[i]].(parentId := None, parentAttachment := Origin)];
      }
      i := i + 1;
    }
    assert kids[..i] == kids;
  }

  /** The old editor's `delete_selected` on the instances: the selected
      instance leaves its parent's list, each child on its list becomes a
      root with ORIGIN attachment, and the instance is removed. */
  function DeleteInstance(insts: Instances, id: string): (r: Instances)
    requires id in insts
    ensures r.Keys == insts.Keys - {id}
    ensures FewerLinks(insts, r)
  {
    var d := Detach(insts, id);
    var o := Orphan(d, d[id].children);
    assert forall k :: k in o ==> o[k].parentId == insts[k].parentId || o[k].parentId.None?;
    o - {id}
  }

  /** One list after `DeleteInstance`: only the deleted id may leave it. */
  lemma DeleteList(insts: Instances, id: string, k: string)
    requires id in insts && k in insts && k != id
    ensures DeleteInstance(insts, id)[k].children ==
      ChangedList(insts[k].children, id, HasParentIn(insts, id) && insts[id].parentId.value == k, false)
  {
    var d := Detach(insts, id);
    var o := Orphan(d, d[id].children);
    assert o[k].children == d[k].children;
  }

  /** The children list `delete_selected` walks: the deleted instance's
      own list after it left its parent's (which can be itself). */
  function KidsOf(insts: Instances, id: string): seq<string>
    requires id in insts
  {
    Detach(insts, id)[id].children
  }

  lemma KidsAreChildren(insts: Instances, id: string)
    requires id in insts && ListMirrors(insts, id)
    ensures id != "" ==> id !in KidsOf(insts, id)
    ensures forall x :: x in KidsOf(insts, id) ==> x in insts[id].children
    ensures forall x :: x in insts[id].children && x != id ==> x in KidsOf(insts, id)
  {
    if id != "" && id in insts[id].children {
      assert HasParentIn(insts, id);
    }
    assert KidsOf(insts, id) == ChangedList(insts[id].children, id, HasParentIn(insts, id) && insts[id].parentId.value == id, false);
    ChangedListMembers(insts[id].children, id, HasParentIn(insts, id) && insts[id].parentId.value == id, false);
  }

  /** One link after `DeleteInstance`: cleared (with ORIGIN attachment)
      for the deleted instance's listed children, kept for the rest. */
  lemma DeleteLink(insts: Instances, id: string, x: string)
    requires id in insts && x in insts && x != id
    ensures DeleteInstance(insts, id)[x].parentId == if x in KidsOf(insts, id) then None else insts[x].parentId
    ensures x in KidsOf(insts, id) ==> DeleteInstance(insts, id)[x].parentAttachment == Origin
  {
    var d := Detach(insts, id);
    var o := Orphan(d, d[id].children);
    assert d[x].parentId == insts[x].parentId && d[x].parentAttachment == insts[x].parentAttachment;
  }

  /** Every former child of the deleted instance is a root with ORIGIN
      attachment afterwards. */
  lemma DeleteOrphans(insts: Instances, id: string)
    requires id in insts && ChildrenMirrorLinks(insts)
    ensures forall k :: k in DeleteInstance(insts, id) && insts[k].parentId == Some(id) ==>
      DeleteInstance(insts, id)[k].parentId.None? && DeleteInstance(insts, id)[k].parentAttachment == Origin
  {
    var r := DeleteInstance(insts, id);
    assert ListMirrors(insts, id);
    KidsAreChildren(insts, id);
    forall k | k in r && insts[k].parentId == Some(id)
      ensures r[k].parentId.None? && r[k].parentAttachment == Origin
    {
      assert Listed(insts, k);
      DeleteLink(insts, id, k);
    }
  }

  /** No link is left dangling by a delete. */
  lemma DeleteClosed(insts: Instances, id: string)
    requires id in insts && ChildrenMirrorLinks(insts) && LinksClosed(insts)
    ensures LinksClosed(DeleteInstance(insts, id))
  {
    var r := DeleteInstance(insts, id);
    DeleteOrphans(insts, id);
    forall x | x in r && IsSet(r[x].parentId)
      ensures r[x].parentId.value in r
    {
      assert r[x].parentId == insts[x].parentId;
    }
  }

  /** Deleting keeps the structure, and removes no chain bound. */
  lemma DeleteKeepsStructure(insts: Instances, id: string)
    requires id in insts && "" !in insts && ChildrenMirrorLinks(insts) && LinksClosed(insts)
    ensures ChildrenMirrorLinks(DeleteInstance(insts, id)) && LinksClosed(DeleteInstance(insts, id))
    ensures forall n: nat :: Rooted(insts, n) ==> Rooted(DeleteInstance(insts, id), n)
  {
    DeleteMirrors(insts, id);
    DeleteClosed(insts, id);
    forall n: nat | Rooted(insts, n)
      ensures Rooted(DeleteInstance(insts, id), n)
    {
      FewerLinksRooted(insts, DeleteInstance(insts, id), n);
    }
  }

  /** Deleting keeps the children lists in step with the links. */
  lemma DeleteMirrors(insts: Instances, id: string)
    requires id in insts && "" !in insts && ChildrenMirrorLinks(insts)
    ensures ChildrenMirrorLinks(DeleteInstance(insts, id))
  {
    var r := DeleteInstance(insts, id);
    assert ListMirrors(insts, id);
    KidsAreChildren(insts, id);
    forall k | k in r
      ensures ListMirrors(r, k)
    {
      DeleteListMirrors(insts, id, k);
    }
    forall x | x in r
      ensures Listed(r, x)
    {
      if r[x].parentId.Some? && r[x].parentId.value in r {
        var q := r[x].parentId.value;
        DeleteLink(insts, id, x);
        assert Listed(insts, x);
        assert ListMirrors(insts, q);
        DeleteList(insts, id, q);
        ChangedListMembers(insts[q].children, id, HasParentIn(insts, id) && insts[id].parentId.value == q, false);
      }
    }
  }

  lemma DeleteListMirrors(insts: Instances, id: string, k: string)
    requires id in insts && "" !in insts && ChildrenMirrorLinks(insts)
    requires k in DeleteInstance(insts, id)
    ensures ListMirrors(DeleteInstance(insts, id), k)
  {
    var r := DeleteInstance(insts, id);
    assert ListMirrors(insts, k);
    assert ListMirrors(insts, id);
    KidsAreChildren(insts, id);
    DeleteList(insts, id, k);
    ChangedListMembers(insts[k].children, id, HasParentIn(insts, id) && insts[id].parentId.value == k, false);
    forall x | x in r[k].children
      ensures x in r && r[x].parentId == Some(k)
    {
      if x == id {
        assert insts[id].parentId == Some(k);
        assert HasParentIn(insts, id);
      }
      assert x != id;
      DeleteLink(insts, id, x);
    }
  }

  // ----- layers --------------------------------------------------------------

  /** `get_layer_alpha`: the farther back, the more transparent. */
  function LayerAlpha(l: BoneLayer): (a: int)
    ensures 0 <= a <= 255
  {
    match l
    case Behind => 160
    case Front => 255
    case Middle => 200
  }

  lemma LayerAlphaOrdered()
    ensures LayerAlpha(Behind) < LayerAlpha(Middle) < LayerAlpha(Front) == 255
  {
  }

  /** `max(0, inst.layer_order + delta)`. */
  function ClampedOrder(order: int, delta: int): (r: int)
    ensures r >= 0
    ensures r == order + delta || (r == 0 && order + delta < 0)
  {
    MaxI(0, order + delta)
  }

  // ----- snapping --------------------------------------------------------------

  /** A `(candidate_id, attachment, distance)` triple of `find_snap_candidates`. */
  datatype Candidate = Candidate(id: string, attachment: Attachment, distance: real)

  /** The filter of `handle_mouse_drag`: a candidate survives when it is
      not the dragged instance and linking to it makes no cycle. */
  method ValidSnapCandidates(insts: Instances, dragged: string, cands: seq<Candidate>, ghost n: nat)
    returns (valid: seq<Candidate>)
    requires Rooted(insts, n)
    ensures forall c :: c in valid <==> c in cands && c.id != dragged && !OnChain(insts, dragged, Some(c.id), n)
    ensures |valid| <= |cands|
  {
    valid := [];
    var i := 0;
    while i < |cands|
      invariant 0 <= i <= |cands| && |valid| <= i
      invariant forall c :: c in valid <==> c in cands[..i] && c.id != dragged && !OnChain(insts, dragged, Some(c.id), n)
    {
      var c := cands[i];
      assert cands[..i + 1] == cands[..i] + [c];
      if c.id != dragged {
        assert ReachesRoot(insts, Some(c.id), n);
        var cyc := WouldCreateCycle(insts, dragged, c.id, n);
        if !cyc {
          valid := valid + [c];
        }
      }
      i := i + 1;
    }
    assert cands[..i] == cands;
  }

  /** `min(valid, key=distance)` (the first of the nearest), kept only when
      it is closer than `snap_distance / zoom`. */
  method ClosestSnap(valid: seq<Candidate>, limit: real) returns (r: Option<Candidate>)
    ensures r.Some? ==> r.value in valid && r.value.distance < limit
    ensures r.Some? ==> forall c :: c in valid ==> r.value.distance <= c.distance
    ensures r.Some? ==> exists k :: 0 <= k < |valid| && valid[k] == r.value && forall j :: 0 <= j < k ==> valid[j].distance > valid[k].distance
    ensures r.None? ==> forall c :: c in valid ==> c.distance >= limit
  {
    if valid == [] {
      return None;
    }
    var best, b := valid[0], 0;
    var i := 1;
    while i < |valid|
      invariant 1 <= i <= |valid| && 0 <= b < i && best == valid[b]
      invariant forall j :: 0 <= j < i ==> best.distance <= valid[j].distance
      invariant forall j :: 0 <= j < b ==> valid[j].distance > best.distance
    {
      if valid[i].distance < best.distance {
        best, b := valid[i], i;
      }
      i := i + 1;
    }
    assert forall c :: c in valid ==> best.distance <= c.distance by {
      forall c | c in valid
        ensures best.distance <= c.distance
      {
        var j :| 0 <= j < |valid| && valid[j] == c;
      }
    }
    if best.distance < limit {
      return Some(best);
    }
    return None;
  }

  // ----- commands on data_objects['instances'] --------------------------------

  function ModifyRecord(id: string, before: SceneInstance, after: SceneInstance): Rec {
    UE.Edit(UE.Modify, InstancesType, id, UE.Obj(None, before), UE.Obj(None, after))
  }

  /** The record went through `execute_command`: applied to the data
      dictionary, pushed on the history, redo emptied. */
  ghost predicate Committed(d0: UE.Store<SceneInstance>, h0: seq<Rec>,
                            d: UE.Store<SceneInstance>, h: seq<Rec>, redo: seq<Rec>, r: Rec) {
    UE.RenameType !in d0 && UE.ExecuteData(d0, r) == Some(d)
    && h == UndoRedo.Trim(h0 + [r], UE.MaxHistory) && redo == []
  }

  /** The record was appended to `command_history` by hand: the data
      dictionary is not touched. */
  ghost predicate Pushed(d0: UE.Store<SceneInstance>, h0: seq<Rec>,
                         d: UE.Store<SceneInstance>, h: seq<Rec>, redo: seq<Rec>, r: Rec) {
    d == d0 && h == UndoRedo.Trim(h0 + [r], UE.MaxHistory) && redo == []
  }

  /** Every key is "inst_" followed by a number below the counter. */
  ghost predicate IdsBelow(insts: Instances, next: nat) {
    forall id :: id in insts ==> Names.Suffix(id, InstancePrefix).Some? && Names.Suffix(id, InstancePrefix).value < next
  }

  /** "inst_N" for a counter value N is never a key yet, and different
      counter values give different ids. */
  lemma FreshInstanceId(insts: Instances, next: nat, other: nat)
    requires IdsBelow(insts, next)
    ensures InstancePrefix + Names.Digits(next) !in insts
    ensures other != next ==> InstancePrefix + Names.Digits(other) != InstancePrefix + Names.Digits(next)
  {
    Names.SuffixOfAllocated(InstancePrefix, next);
    Names.SuffixOfAllocated(InstancePrefix, other);
  }

  /** The instance `create_instance_from_palette` makes takes a fresh,
      non-empty id, and the counter stays above every id. */
  lemma NewInstanceKeepsIds(insts: Instances, next: nat, inst: SceneInstance)
    requires IdsBelow(insts, next) && inst.id == InstancePrefix + Names.Digits(next)
    ensures inst.id !in insts && inst.id != ""
    ensures IdsBelow(insts[inst.id := inst], next + 1)
  {
    FreshInstanceId(insts, next, 0);
    Names.SuffixOfAllocated(InstancePrefix, next);
  }

  lemma EmptyIdAbsent(insts: Instances, next: nat)
    requires IdsBelow(insts, next)
    ensures "" !in insts
  {
    assert Names.Suffix("", InstancePrefix).None?;
  }

  /** `execute_command` of an edit of the instances on the core: the record
      always applies, and the selection is left alone. */
  method CommitEdit(core: UE.Editor<SceneInstance>, r: Rec)
    requires core.Valid() && InstancesType in core.dataObjects
    requires r.Edit? && r.objectType == InstancesType
    modifies core`dataObjects, core`history, core`redoStack
    ensures core.Valid() && InstancesType in core.dataObjects
    ensures Committed(old(core.dataObjects), old(core.history), core.dataObjects, core.history, core.redoStack, r)
  {
    var ok := core.ExecuteCommand(r);
  }

  /** What both editors' `delete_selected` rely on: the result keeps every
      invariant of the scene, the children become roots, and the record
      saves the instance as it was after leaving its parent's list. */
  lemma DeleteStep(insts: Instances, id: string, next: nat)
    requires id in insts && IdsBelow(insts, next) && ChildrenMirrorLinks(insts) && LinksClosed(insts)
    ensures var d := Detach(insts, id);
      && Orphan(d, d[id].children)[id] == d[id]
      && Orphan(d, d[id].children) - {id} == DeleteInstance(insts, id)
    ensures IdsBelow(DeleteInstance(insts, id), next)
    ensures ChildrenMirrorLinks(DeleteInstance(insts, id)) && LinksClosed(DeleteInstance(insts, id))
    ensures forall n: nat :: Rooted(insts, n) ==> Rooted(DeleteInstance(insts, id), n)
    ensures forall k :: k in DeleteInstance(insts, id) && insts[k].parentId == Some(id) ==>
      DeleteInstance(insts, id)[k].parentId.None? && DeleteInstance(insts, id)[k].parentAttachment == Origin
  {
    EmptyIdAbsent(insts, next);
    DeleteKeepsStructure(insts, id);
    DeleteOrphans(insts, id);
    assert ListMirrors(insts, id);
    KidsAreChildren(insts, id);
  }

  /** `BonelessSceneEditor`: the live instances, the id counter and the
      `UniversalEditor` core holding `data_objects`, the command stacks and
      the selection. */
  class SceneEditor {
    var instances: Instances
    var nextInstanceIndex: nat
    /** A bound on the length of every parent chain. */
    ghost var depth: nat
    const core: UE.Editor<SceneInstance>

    ghost predicate Valid()
      reads this, core
    {
      core.Valid() && InstancesType in core.dataObjects
      && IdsBelow(instances, nextInstanceIndex)
      && ChildrenMirrorLinks(instances) && LinksClosed(instances) && Rooted(instances, depth)
    }

    /** `setup_data_structures`: an empty scene (the palette reference is
        not part of this model). */
    constructor ()
      ensures Valid() && fresh(core)
      ensures instances == map[] && nextInstanceIndex == 0
      ensures core.dataObjects.Keys == {InstancesType} && core.dataObjects[InstancesType] == map[]
      ensures core.history == [] && core.redoStack == [] && core.selected == map[]
    {
      core := new UE.Editor({InstancesType});
      instances := map[];
      nextInstanceIndex := 0;
      depth := 0;
    }

    /** The first selected instance id, when it is truthy and an instance
        (otherwise the handlers return, or raise `KeyError` before
        changing anything). */
    function Selected(): (r: Option<string>)
      reads this, core
      ensures r.Some? ==> r.value in instances && core.IsObjectSelected(InstancesType, r.value)
    {
      var s := core.GetFirstSelected(InstancesType);
      if IsSet(s) && s.value in instances then s else None
    }

    /** `create_instance_from_palette`. */
    method CreateInstanceFromPalette(spriteName: string, worldX: real, worldY: real) returns (iid: string)
      requires Valid()
      modifies this, core
      ensures Valid()
      ensures iid == InstancePrefix + Names.Digits(old(nextInstanceIndex)) && iid !in old(instances)
      ensures nextInstanceIndex == old(nextInstanceIndex) + 1
      ensures instances == old(instances)[iid := SceneInstance(iid, spriteName, worldX, worldY)]
      ensures Committed(old(core.dataObjects), old(core.history), core.dataObjects, core.history, core.redoStack,
                        UE.Edit(UE.Create, InstancesType, iid, UE.NoneValue, UE.Obj(None, instances[iid])))
      ensures core.selected == old(core.selected)
    {
      iid := InstancePrefix + Names.Digits(nextInstanceIndex);
      var inst := SceneInstance(iid, spriteName, worldX, worldY);
      NewInstanceKeepsIds(instances, nextInstanceIndex, inst);
      AddRoot(instances, inst);
      AddRootRooted(instances, inst, depth);
      nextInstanceIndex := nextInstanceIndex + 1;
      instances := instances[iid := inst];
      depth := depth + 1;
      var ok := core.ExecuteCommand(UE.Edit(UE.Create, InstancesType, iid, UE.NoneValue, UE.Obj(None, inst)));
    }

    /** `set_selected_instance_layer`: a command only when the layer changes. */
    method SetSelectedInstanceLayer(layer: BoneLayer)
      requires Valid()
      modifies this, core
      ensures Valid() && depth == old(depth)
      ensures var s := old(Selected());
        if s.None? || old(instances)[s.value].layer == layer then
          instances == old(instances) && core.dataObjects == old(core.dataObjects)
          && core.history == old(core.history) && core.redoStack == old(core.redoStack)
        else
          var before := old(instances)[s.value];
          instances == old(instances)[s.value := before.(layer := layer)]
          && Committed(old(core.dataObjects), old(core.history), core.dataObjects, core.history, core.redoStack,
                       ModifyRecord(s.value, before, before.(layer := layer)))
    {
      var s := Selected();
      if s.None? {
        return;
      }
      var before := instances[s.value];
      if before.layer != layer {
        UpdateOne(s.value, before.(layer := layer));
      }
    }

    /** `cycle_selected_instance_layer`: always records a command. */
    method CycleSelectedInstanceLayer()
      requires Valid()
      modifies this, core
      ensures Valid() && depth == old(depth)
      ensures var s := old(Selected());
        if s.None? then
          instances == old(instances) && core.dataObjects == old(core.dataObjects)
          && core.history == old(core.history) && core.redoStack == old(core.redoStack)
        else
          var before := old(instances)[s.value];
          instances == old(instances)[s.value := before.(layer := NextLayer(before.layer))]
          && Committed(old(core.dataObjects), old(core.history), core.dataObjects, core.history, core.redoStack,
                       ModifyRecord(s.value, before, before.(layer := NextLayer(before.layer))))
    {
      var s := Selected();
      if s.None? {
        return;
      }
      var before := instances[s.value];
      UpdateOne(s.value, before.(layer := NextLayer(before.layer)));
    }

    /** `change_selected_instance_layer_order`: clamped at 0, and a command
        only when the order changes. */
    method ChangeSelectedInstanceLayerOrder(delta: int)
      requires Valid()
      modifies this, core
      ensures Valid() && depth == old(depth)
      ensures forall id :: id in instances ==>
        instances[id].layerOrder >= 0 || (id in old(instances) && instances[id] == old(instances)[id])
      ensures var s := old(Selected());
        if s.None? || ClampedOrder(old(instances)[s.value].layerOrder, delta) == old(instances)[s.value].layerOrder then
          instances == old(instances) && core.dataObjects == old(core.dataObjects)
          && core.history == old(core.history) && core.redoStack == old(core.redoStack)
        else
          var before := old(instances)[s.value];
          var after := before.(layerOrder := ClampedOrder(before.layerOrder, delta));
          instances == old(instances)[s.value := after]
          && Committed(old(core.dataObjects), old(core.history), core.dataObjects, core.history, core.redoStack,
                       ModifyRecord(s.value, before, after))
    {
      var s := Selected();
      if s.None? {
        return;
      }
      var before := instances[s.value];
      var newOrder := MaxI(0, before.layerOrder + delta);
      if newOrder != before.layerOrder {
        UpdateOne(s.value, before.(layerOrder := newOrder));
      }
    }

    /** An edit of one instance that leaves its links and children alone,
        recorded through `execute_command`. */
    method UpdateOne(id: string, after: SceneInstance)
      requires Valid() && id in instances
      requires after.parentId == instances[id].parentId && after.children == instances[id].children
      modifies this`instances, core
      ensures Valid()
      ensures instances == old(instances)[id := after]
      ensures Committed(old(core.dataObjects), old(core.history), core.dataObjects, core.history, core.redoStack,
                        ModifyRecord(id, old(instances)[id], after))
    {
      var before := instances[id];
      UpdateKeepsStructure(instances, id, after, depth);
      instances := instances[id := after];
      var ok := core.ExecuteCommand(ModifyRecord(id, before, after));
    }

    /** Appends a record to the history by hand, as `unparent_for_transform`
        and `complete_instance_snap` do, without applying it. */
    method PushRecord(r: Rec)
      requires core.Valid() && InstancesType in core.dataObjects
      requires r.Edit? && r.objectType == InstancesType
      modifies core`history, core`redoStack
      ensures core.Valid()
      ensures Pushed(old(core.dataObjects), old(core.history), core.dataObjects, core.history, core.redoStack, r)
    {
      core.history := core.history + [r];
      core.redoStack := [];
      if |core.history| > UE.MaxHistory {
        core.history := core.history[1..];
      }
    }

    /** `unparent_for_transform`: a parented instance becomes a root with
        ORIGIN attachment at its world position (`worldX`, `worldY`). */
    method UnparentForTransform(id: string, worldX: real, worldY: real)
      requires Valid()
      modifies this, core
      ensures Valid() && depth == old(depth)
      ensures if id in old(instances) && IsSet(old(instances)[id].parentId) then
          instances == MoveTo(Relink(old(instances), id, None, Origin), id, worldX, worldY)
          && !HasParentIn(instances, id) && old(instances)[id].parentId.value in instances
          && id !in instances[old(instances)[id].parentId.value].children
          && Pushed(old(core.dataObjects), old(core.history), core.dataObjects, core.history, core.redoStack,
                    ModifyRecord(id, old(instances)[id], instances[id]))
        else
          instances == old(instances) && core.history == old(core.history) && core.redoStack == old(core.redoStack)
          && core.dataObjects == old(core.dataObjects)
    {
      if id !in instances || !IsSet(instances[id].parentId) {
        return;
      }
      var before := instances[id];
      UnlinkKeepsStructure(instances, id, worldX, worldY, depth, nextInstanceIndex);
      instances := MoveTo(Relink(instances, id, None, Origin), id, worldX, worldY);
      assert IdsBelow(instances, nextInstanceIndex) && ChildrenMirrorLinks(instances) && LinksClosed(instances)
        && Rooted(instances, depth);
      PushRecord(ModifyRecord(id, before, instances[id]));
    }

    /** `reparent_to_world`: as above, at the drop position, through
        `execute_command`. */
    method ReparentToWorld(child: string, worldX: real, worldY: real)
      requires Valid()
      modifies this, core
      ensures Valid() && depth == old(depth)
      ensures child !in old(instances) ==>
        instances == old(instances) && core.history == old(core.history) && core.redoStack == old(core.redoStack)
        && core.dataObjects == old(core.dataObjects)
      ensures child in old(instances) ==>
        instances == MoveTo(Relink(old(instances), child, None, Origin), child, worldX, worldY)
        && instances[child].parentId.None? && instances[child].parentAttachment == Origin
        && (forall k :: k in instances ==> child !in instances[k].children)
        && Committed(old(core.dataObjects), old(core.history), core.dataObjects, core.history, core.redoStack,
                     ModifyRecord(child, old(instances)[child], instances[child]))
    {
      if child !in instances {
        return;
      }
      var before := instances[child];
      UnlinkKeepsStructure(instances, child, worldX, worldY, depth, nextInstanceIndex);
      instances := MoveTo(Relink(instances, child, None, Origin), child, worldX, worldY);
      assert IdsBelow(instances, nextInstanceIndex) && ChildrenMirrorLinks(instances) && LinksClosed(instances)
        && Rooted(instances, depth);
      var ok := core.ExecuteCommand(ModifyRecord(child, before, instances[child]));
    }

    /** `reparent_to_attachment_point` (and the identical
        `set_parent_at_attachment_point`): the link, with the local position
        (`localX`, `localY`) that keeps the child at the attachment point.
        Its caller has already refused cycle-closing targets. */
    method ReparentToAttachmentPoint(child: string, parent: string, att: Attachment, localX: real, localY: real)
      requires Valid()
      requires !OnChain(instances, child, Some(parent), depth)
      modifies this, core
      ensures Valid()
      ensures child !in old(instances) || parent !in old(instances) ==>
        instances == old(instances) && core.history == old(core.history) && core.redoStack == old(core.redoStack)
        && core.dataObjects == old(core.dataObjects)
      ensures child in old(instances) && parent in old(instances) ==>
        instances == MoveTo(Relink(old(instances), child, Some(parent), att), child, localX, localY)
        && child in instances[parent].children
        && Committed(old(core.dataObjects), old(core.history), core.dataObjects, core.history, core.redoStack,
                     ModifyRecord(child, old(instances)[child], instances[child]))
    {
      if child !in instances || parent !in instances {
        return;
      }
      var before := instances[child];
      Link(child, parent, att, localX, localY);
      var ok := core.ExecuteCommand(ModifyRecord(child, before, instances[child]));
    }

    /** The live-instance half of a checked link. */
    method Link(child: string, parent: string, att: Attachment, localX: real, localY: real)
      requires Valid() && child in instances && parent in instances
      requires !OnChain(instances, child, Some(parent), depth)
      modifies this`instances, this`depth
      ensures Valid()
      ensures instances == MoveTo(Relink(old(instances), child, Some(parent), att), child, localX, localY)
      ensures child in instances[parent].children
    {
      LinkKeepsStructure(instances, child, parent, att, localX, localY, depth, nextInstanceIndex);
      instances := MoveTo(Relink(instances, child, Some(parent), att), child, localX, localY);
      depth := 2 * depth + 1;
      assert IdsBelow(instances, nextInstanceIndex) && ChildrenMirrorLinks(instances) && LinksClosed(instances)
        && Rooted(instances, depth);
    }

    /** `complete_instance_snap`: nothing changes when either id is unknown
        or the link would close a cycle; otherwise the link is made and the
        record is appended by hand. */
    method CompleteInstanceSnap(id: string, target: string, att: Attachment, localX: real, localY: real)
      returns (attached: bool)
      requires Valid()
      modifies this, core
      ensures Valid()
      ensures attached <==> id in old(instances) && target in old(instances)
                            && !OnChain(old(instances), id, Some(target), old(depth))
      ensures !attached ==>
        instances == old(instances) && core.history == old(core.history) && core.redoStack == old(core.redoStack)
        && core.dataObjects == old(core.dataObjects)
      ensures attached ==>
        instances == MoveTo(Relink(old(instances), id, Some(target), att), id, localX, localY)
        && id in instances[target].children
        && Pushed(old(core.dataObjects), old(core.history), core.dataObjects, core.history, core.redoStack,
                  ModifyRecord(id, old(instances)[id], instances[id]))
    {
      if id !in instances || target !in instances {
        return false;
      }
      var cyc := WouldCreateCycle(instances, id, target, depth);
      if cyc {
        return false;
      }
      var before := instances[id];
      Link(id, target, att, localX, localY);
      PushRecord(ModifyRecord(id, before, instances[id]));
      attached := true;
    }

    /** `delete_selected`: the instance leaves its parent's list, its
        children become roots with ORIGIN attachment, it is removed, a
        delete command is recorded and the selection cleared. */
    method DeleteSelected()
      requires Valid()
      modifies this`instances, core
      ensures Valid()
      ensures var s := old(Selected());
        s.None? ==>
          instances == old(instances) && core.history == old(core.history) && core.redoStack == old(core.redoStack)
          && core.dataObjects == old(core.dataObjects) && core.selected == old(core.selected)
      ensures var s := old(Selected());
        s.Some? ==>
          instances == DeleteInstance(old(instances), s.value)
          && core.selected == map[]
          && (forall k :: k in instances && old(instances)[k].parentId == Some(s.value) ==>
                instances[k].parentId.None? && instances[k].parentAttachment == Origin)
          && Committed(old(core.dataObjects), old(core.history), core.dataObjects, core.history, core.redoStack,
                       UE.Edit(UE.Delete, InstancesType, s.value,
                               UE.Obj(None, Detach(old(instances), s.value)[s.value]),
                               UE.NoneValue))
    {
      var s := Selected();
      if s.None? {
        return;
      }
      var id := s.value;
      DeleteStep(instances, id, nextInstanceIndex);
      var d := Detach(instances, id);
      var m := OrphanKids(d, d[id].children);
      var oldInst := m[id];
      instances := m - {id};
      assert IdsBelow(instances, nextInstanceIndex) && ChildrenMirrorLinks(instances) && LinksClosed(instances)
        && Rooted(instances, depth);
      CommitEdit(core, UE.Edit(UE.Delete, InstancesType, id, UE.Obj(None, oldInst), UE.NoneValue));
      core.ClearSelection();
    }

    /** `undo`: only the core's dictionary and stacks move; the live scene
        stays where it is. */
    method Undo()
      requires Valid()
      modifies core
      ensures Valid()
      ensures instances == old(instances)
      ensures old(core.history) != [] ==>
        var top := old(core.history)[|old(core.history)| - 1];
        (core.dataObjects, core.selected) == UE.UndoData(old(core.dataObjects), old(core.selected), top)
    {
      core.Undo();
    }

    /** `redo`: likewise; the core re-applies the newest undone record
        and, as its `redo` is written, drops the rest of the redo stack. */
    method Redo()
      requires Valid()
      modifies core
      ensures Valid()
      ensures instances == old(instances)
      ensures old(core.redoStack) == [] ==>
        core.dataObjects == old(core.dataObjects) && core.history == old(core.history) && core.redoStack == []
      ensures old(core.redoStack) != [] ==>
        var top := old(core.redoStack)[|old(core.redoStack)| - 1];
        var res := UE.ExecuteData(old(core.dataObjects), top);
        && (res.Some? ==> core.dataObjects == res.value && core.history == UE.UndoRedo.Trim(old(core.history) + [top], UE.MaxHistory)
                          && core.redoStack == [])
        && (res.None? ==> core.dataObjects == old(core.dataObjects) && core.history == old(core.history)
                          && core.redoStack == old(core.redoStack)[..|old(core.redoStack)| - 1])
    {
      var ok := core.Redo();
    }
  }

  /** `BonelessAnimEditor` of the old editor: the same scene with a
      keyframe track per instance. */
  class OldAnimator {
    var instances: Instances
    var tracks: map<string, BonelessTrack.OldAnimationTrack>
    var nextInstanceIndex: nat
    const core: UE.Editor<SceneInstance>

    ghost predicate Valid()
      reads this, core
    {
      core.Valid() && InstancesType in core.dataObjects
      && IdsBelow(instances, nextInstanceIndex) && ChildrenMirrorLinks(instances) && LinksClosed(instances)
    }

    constructor ()
      ensures Valid() && fresh(core)
      ensures instances == map[] && tracks == map[] && nextInstanceIndex == 0
    {
      core := new UE.Editor({InstancesType, "animation_tracks"});
      instances := map[];
      tracks := map[];
      nextInstanceIndex := 0;
    }

    function Selected(): (r: Option<string>)
      reads this, core
      ensures r.Some? ==> r.value in instances && core.IsObjectSelected(InstancesType, r.value)
    {
      var s := core.GetFirstSelected(InstancesType);
      if IsSet(s) && s.value in instances then s else None
    }

    /** `create_instance_from_palette`: also gives the instance an empty
        track. */
    method CreateInstanceFromPalette(spriteName: string, worldX: real, worldY: real) returns (iid: string)
      requires Valid()
      modifies this, core
      ensures Valid()
      ensures iid == InstancePrefix + Names.Digits(old(nextInstanceIndex)) && iid !in old(instances)
      ensures nextInstanceIndex == old(nextInstanceIndex) + 1
      ensures instances == old(instances)[iid := SceneInstance(iid, spriteName, worldX, worldY)]
      ensures tracks.Keys == old(tracks).Keys + {iid} && fresh(tracks[iid]) && tracks[iid].keyframes == []
      ensures forall k :: k in old(tracks) && k != iid ==> tracks[k] == old(tracks)[k]
      ensures Committed(old(core.dataObjects), old(core.history), core.dataObjects, core.history, core.redoStack,
                        UE.Edit(UE.Create, InstancesType, iid, UE.NoneValue, UE.Obj(None, instances[iid])))
    {
      iid := InstancePrefix + Names.Digits(nextInstanceIndex);
      var inst := SceneInstance(iid, spriteName, worldX, worldY);
      NewInstanceKeepsIds(instances, nextInstanceIndex, inst);
      AddRoot(instances, inst);
      nextInstanceIndex := nextInstanceIndex + 1;
      instances := instances[iid := inst];
      var track := new BonelessTrack.OldAnimationTrack(iid);
      tracks := tracks[iid := track];
      var ok := core.ExecuteCommand(UE.Edit(UE.Create, InstancesType, iid, UE.NoneValue, UE.Obj(None, inst)));
    }

    /** `set_parent`: re-links without a cycle check of its own. */
    method SetParent(child: string, parent: Option<string>, att: Attachment := Origin)
      requires Valid() && (!IsSet(parent) || parent.value in instances)
      modifies this`instances, core
      ensures Valid()
      ensures child !in old(instances) ==>
        instances == old(instances) && core.history == old(core.history) && core.dataObjects == old(core.dataObjects)
      ensures child in old(instances) ==>
        instances == Relink(old(instances), child, parent, att)
        && Committed(old(core.dataObjects), old(core.history), core.dataObjects, core.history, core.redoStack,
                     ModifyRecord(child, old(instances)[child], instances[child]))
    {
      if child !in instances {
        return;
      }
      var before := instances[child];
      EmptyIdAbsent(instances, nextInstanceIndex);
      RelinkMirrors(instances, child, parent, att);
      RelinkClosed(instances, child, parent, att);
      instances := Relink(instances, child, parent, att);
      var ok := core.ExecuteCommand(ModifyRecord(child, before, instances[child]));
    }

    /** `parent_selected_to_cursor` as written: the only guard is that the
        target is not the selected instance itself. */
    method ParentSelectedToCursor(target: Option<string>)
      requires Valid() && (!IsSet(target) || target.value in instances)
      modifies this`instances, core
      ensures Valid()
      ensures var s := old(Selected());
        s.Some? && IsSet(target) && target.value != s.value ==>
          instances == Relink(old(instances), s.value, target, Origin)
      ensures var s := old(Selected());
        !(s.Some? && IsSet(target) && target.value != s.value) ==> instances == old(instances)
    {
      var s := Selected();
      if s.None? || !IsSet(target) || target.value == s.value {
        return;
      }
      SetParent(s.value, target, Origin);
    }

    /** `parent_selected_to_cursor` with the `would_create_cycle` check the
        other re-parenting paths make: parent chains stay finite. */
    method ParentSelectedToCursorFixed(target: Option<string>, ghost n: nat) returns (ghost m: nat)
      requires Valid() && Rooted(instances, n) && (!IsSet(target) || target.value in instances)
      modifies this`instances, core
      ensures Valid() && Rooted(instances, m)
      ensures var s := old(Selected());
        s.Some? && IsSet(target) && target.value != s.value
        && !OnChain(old(instances), s.value, target, n) ==>
          instances == Relink(old(instances), s.value, target, Origin)
      ensures var s := old(Selected());
        !(s.Some? && IsSet(target) && target.value != s.value && !OnChain(old(instances), s.value, target, n)) ==>
          instances == old(instances)
    {
      m := n;
      var s := Selected();
      if s.None? || !IsSet(target) || target.value == s.value {
        return;
      }
      assert ReachesRoot(instances, target, n);
      var cyc := WouldCreateCycle(instances, s.value, target.value, n);
      if cyc {
        return;
      }
      ghost var before := instances;
      SetParent(s.value, target, Origin);
      LinkKeepsRooted(before, instances, s.value, target.value, n);
      m := 2 * n + 1;
    }

    /** `unparent_selected`. */
    method UnparentSelected()
      requires Valid()
      modifies this`instances, core
      ensures Valid()
      ensures var s := old(Selected());
        s.Some? && IsSet(old(instances)[s.value].parentId) ==>
          instances == Relink(old(instances), s.value, None, Origin) && instances[s.value].parentId.None?
      ensures var s := old(Selected());
        !(s.Some? && IsSet(old(instances)[s.value].parentId)) ==> instances == old(instances)
      ensures forall n: nat :: Rooted(old(instances), n) ==> Rooted(instances, n)
    {
      var s := Selected();
      if s.None? || !IsSet(instances[s.value].parentId) {
        return;
      }
      ghost var before := instances;
      SetParent(s.value, None, Origin);
      forall n: nat | Rooted(before, n)
        ensures Rooted(instances, n)
      {
        FewerLinksRooted(before, instances, n);
      }
    }

    /** `delete_selected`: the instance leaves its parent's list, its
        children become roots with ORIGIN attachment, it and its track are
        removed, a delete command is recorded and the selection cleared. */
    method DeleteSelected()
      requires Valid()
      modifies this, core
      ensures Valid()
      ensures var s := old(Selected());
        s.None? ==> instances == old(instances) && tracks == old(tracks) && core.selected == old(core.selected)
      ensures var s := old(Selected());
        s.Some? ==>
          instances == DeleteInstance(old(instances), s.value)
          && tracks == old(tracks) - {s.value}
          && core.selected == map[]
          && (forall k :: k in instances && old(instances)[k].parentId == Some(s.value) ==>
                instances[k].parentId.None? && instances[k].parentAttachment == Origin)
          && Committed(old(core.dataObjects), old(core.history), core.dataObjects, core.history, core.redoStack,
                       UE.Edit(UE.Delete, InstancesType, s.value,
                               UE.Obj(None, Detach(old(instances), s.value)[s.value]),
                               UE.NoneValue))
      ensures forall n: nat :: Rooted(old(instances), n) ==> Rooted(instances, n)
    {
      var s := Selected();
      if s.None? {
        return;
      }
      var id := s.value;
      DeleteStep(instances, id, nextInstanceIndex);
      var d := Detach(instances, id);
      var m := OrphanKids(d, d[id].children);
      var oldInst := m[id];
      instances := m - {id};
      tracks := tracks - {id};
      assert IdsBelow(instances, nextInstanceIndex) && ChildrenMirrorLinks(instances) && LinksClosed(instances);
      CommitEdit(core, UE.Edit(UE.Delete, InstancesType, id, UE.Obj(None, oldInst), UE.NoneValue));
      core.ClearSelection();
      assert core.Valid() && InstancesType in core.dataObjects;
    }
  }

  /** The discrepancy of `parent_selected_to_cursor`: with `inst_0` the
      parent of `inst_1`, selecting `inst_0` and parenting it to `inst_1`
      makes the two each other's parent, after which no walk up from
      either ends (and `would_create_cycle` from them never returns). */
  lemma ParentToCursorMakesCycle()
    ensures var a := SceneInstance("inst_0", "s", children := ["inst_1"]);
      var b := SceneInstance("inst_1", "s", parentId := Some("inst_0"));
      var insts := map["inst_0" := a, "inst_1" := b];
      var r := Relink(insts, "inst_0", Some("inst_1"), Origin);
      Rooted(insts, 2)
      && r["inst_0"].parentId == Some("inst_1") && r["inst_1"].parentId == Some("inst_0")
      && forall n: nat :: !ReachesRoot(r, Some("inst_0"), n)
  {
    var a := SceneInstance("inst_0", "s", children := ["inst_1"]);
    var b := SceneInstance("inst_1", "s", parentId := Some("inst_0"));
    var insts := map["inst_0" := a, "inst_1" := b];
    var r := Relink(insts, "inst_0", Some("inst_1"), Origin);
    assert ReachesRoot(insts, Some("inst_0"), 2);
    assert ReachesRoot(insts, Some("inst_1"), 2);
    forall n: nat
      ensures !ReachesRoot(r, Some("inst_0"), n)
    {
      MutualParentsNeverRoot(r, "inst_0", "inst_1", n);
    }
  }
}
