/** Time-ordered keyframe lists, shared by every track implementation in
    PySpine. Each track type keeps its keyframes in a Python list and
    reads a keyframe's time through an attribute; here the attribute is the
    function `time`.

    * `FirstLater` is the insertion point of the `add_keyframe` loops: the
      first keyframe strictly later than the new one, or the end.
    * `SortBy` is `list.sort(key=lambda kf: kf.time)`: a stable sort, built
      by inserting each element after the ones with an equal time.
    * `FirstBracket` is the `for i in range(len(kfs) - 1)` scan of every
      `get_transform_at_time`: the first consecutive pair whose times
      enclose the requested time.
    * `FirstMatch` is the "first keyframe within a tolerance" search. */
module KeyframeOrder {
  import opened Types

  predicate SortedBy<K>(s: seq<K>, time: K -> real) {
    forall i, j :: 0 <= i < j < |s| ==> time(s[i]) <= time(s[j])
  }

  function FirstLater<K>(s: seq<K>, time: K -> real, t: real): (k: nat)
    ensures k <= |s|
    ensures forall j :: 0 <= j < k ==> time(s[j]) <= t
    ensures k < |s| ==> time(s[k]) > t
  {
    if s == [] then 0
    else if time(s[0]) > t then 0
    else 1 + FirstLater(s[1..], time, t)
  }

  /** The position is fixed by the two facts above. */
  lemma FirstLaterAt<K>(s: seq<K>, time: K -> real, t: real, k: nat)
    requires k <= |s|
    requires forall j :: 0 <= j < k ==> time(s[j]) <= t
    requires k < |s| ==> time(s[k]) > t
    ensures FirstLater(s, time, t) == k
  {
  }

  /** Insert `x` in front of the first strictly later element, or append. */
  function InsertBy<K>(s: seq<K>, x: K, time: K -> real): (r: seq<K>)
    ensures |r| == |s| + 1
    ensures multiset(r) == multiset(s) + multiset{x}
  {
    var k := FirstLater(s, time, time(x));
    assert s == s[..k] + s[k..];
    s[..k] + [x] + s[k..]
  }

  /** Element positions after splicing `x` in at `k`. */
  lemma SpliceIndices<K>(s: seq<K>, k: nat, x: K)
    requires k <= |s|
    ensures var r := s[..k] + [x] + s[k..];
      && |r| == |s| + 1 && r[k] == x
      && (forall j :: 0 <= j < k ==> r[j] == s[j])
      && (forall j :: k < j < |r| ==> r[j] == s[j - 1])
  {
  }

  /** Inserting into a time-ordered list keeps it ordered; the new element
      sits after every element with an equal time and before every later
      one, and removing it gives back the old list. */
  lemma {:induction false} InsertByKeepsOrder<K>(s: seq<K>, x: K, time: K -> real)
    requires SortedBy(s, time)
    ensures SortedBy(InsertBy(s, x, time), time)
    ensures var k := FirstLater(s, time, time(x));
      && InsertBy(s, x, time)[k] == x
      && (forall j :: 0 <= j < k ==> time(InsertBy(s, x, time)[j]) <= time(x))
      && (forall j :: k < j < |s| + 1 ==> time(InsertBy(s, x, time)[j]) > time(x))
  {
    var k := FirstLater(s, time, time(x));
    var r := InsertBy(s, x, time);
    SpliceIndices(s, k, x);
    assert r == s[..k] + [x] + s[k..];
    InsertedAfterEqual(s, x, time, k, r);
    InsertedSorted(s, x, time, k, r);
  }

  /** Removing the inserted element gives back the old list, ordered or
      not. */
  lemma InsertByThenRemove<K>(s: seq<K>, x: K, time: K -> real)
    ensures var k := FirstLater(s, time, time(x));
      k < |InsertBy(s, x, time)| && InsertBy(s, x, time)[k] == x && RemoveAt(InsertBy(s, x, time), k) == s
  {
    var k := FirstLater(s, time, time(x));
    var r := InsertBy(s, x, time);
    assert r == s[..k] + [x] + s[k..];
    assert RemoveAt(r, k) == s[..k] + s[k..];
    assert s[..k] + s[k..] == s;
  }

  lemma InsertedAfterEqual<K>(s: seq<K>, x: K, time: K -> real, k: nat, r: seq<K>)
    requires SortedBy(s, time) && k == FirstLater(s, time, time(x))
    requires |r| == |s| + 1 && r[k] == x
    requires forall j :: 0 <= j < k ==> r[j] == s[j]
    requires forall j :: k < j < |r| ==> r[j] == s[j - 1]
    ensures forall j :: 0 <= j < k ==> time(r[j]) <= time(x)
    ensures forall j :: k < j < |r| ==> time(r[j]) > time(x)
  {
    forall j | k < j < |r|
      ensures time(r[j]) > time(x)
    {
      assert time(s[k]) <= time(s[j - 1]);
    }
  }

  lemma InsertedSorted<K>(s: seq<K>, x: K, time: K -> real, k: nat, r: seq<K>)
    requires SortedBy(s, time) && k <= |s|
    requires |r| == |s| + 1 && r[k] == x
    requires forall j :: 0 <= j < k ==> r[j] == s[j]
    requires forall j :: k < j < |r| ==> r[j] == s[j - 1]
    requires forall j :: 0 <= j < k ==> time(r[j]) <= time(x)
    requires forall j :: k < j < |r| ==> time(r[j]) > time(x)
    ensures SortedBy(r, time)
  {
    forall i, j | 0 <= i < j < |r|
      ensures time(r[i]) <= time(r[j])
    {
      if i > k {
        assert time(s[i - 1]) <= time(s[j - 1]);
      }
    }
  }

  /** Stable sort by time. */
  function SortBy<K>(s: seq<K>, time: K -> real): (r: seq<K>)
    ensures |r| == |s|
    ensures multiset(r) == multiset(s)
  {
    if s == [] then []
    else
      assert s == s[..|s| - 1] + [s[|s| - 1]];
      InsertBy(SortBy(s[..|s| - 1], time), s[|s| - 1], time)
  }

  lemma {:induction false} SortBySorted<K>(s: seq<K>, time: K -> real)
    ensures SortedBy(SortBy(s, time), time)
  {
    if s != [] {
      SortBySorted(s[..|s| - 1], time);
      InsertByKeepsOrder(SortBy(s[..|s| - 1], time), s[|s| - 1], time);
    }
  }

  /** Sorting an already ordered list leaves it exactly as it was, so a
      stable re-sort after an edit that kept the order changes nothing. */
  lemma {:induction false} SortByIdentityOnSorted<K>(s: seq<K>, time: K -> real)
    requires SortedBy(s, time)
    ensures SortBy(s, time) == s
  {
    if s != [] {
      var p := s[..|s| - 1];
      var x := s[|s| - 1];
      assert SortBy(p, time) == p by {
        assert SortedBy(p, time);
        SortByIdentityOnSorted(p, time);
      }
      assert FirstLater(p, time, time(x)) == |p| by {
        assert forall j :: 0 <= j < |p| ==> time(p[j]) <= time(x);
        FirstLaterAt(p, time, time(x), |p|);
      }
      assert InsertBy(p, x, time) == s by {
        assert p[..|p|] + [x] + p[|p|..] == s;
      }
    }
  }

  /** No two elements share a time. */
  predicate StrictlySortedBy<K>(s: seq<K>, time: K -> real) {
    forall i, j :: 0 <= i < j < |s| ==> time(s[i]) < time(s[j])
  }

  /** A time-ordered list holding the same elements as a list with distinct
      times is that list: sorting cannot reorder anything. */
  lemma {:induction false} SortedUnique<K>(a: seq<K>, b: seq<K>, time: K -> real)
    requires SortedBy(a, time) && StrictlySortedBy(b, time)
    requires multiset(a) == multiset(b)
    ensures a == b
    decreases |b|
  {
    assert |a| == |multiset(a)| == |b|;
    if b != [] {
      SameHead(a, b, time);
      var a', b' := a[1..], b[1..];
      assert a == [a[0]] + a' && b == [b[0]] + b';
      assert multiset(a') == multiset(b') by {
        assert multiset(a') == multiset(a) - multiset{a[0]};
        assert multiset(b') == multiset(b) - multiset{b[0]};
      }
      SortedUnique(a', b', time);
    }
  }

  /** Under the same conditions the first elements agree, and the tails
      are still ordered. */
  lemma SameHead<K>(a: seq<K>, b: seq<K>, time: K -> real)
    requires SortedBy(a, time) && StrictlySortedBy(b, time)
    requires multiset(a) == multiset(b) && b != [] && a != []
    ensures a[0] == b[0]
    ensures SortedBy(a[1..], time) && StrictlySortedBy(b[1..], time)
  {
    assert b[0] in multiset(a);
    var i :| 0 <= i < |a| && a[i] == b[0];
    assert a[0] in multiset(b);
    var k :| 0 <= k < |b| && b[k] == a[0];
    assert time(a[0]) <= time(b[0]);
  }

  /** When `x` is the only element of `m` satisfying `p`, the search finds
      it in any rearrangement `r` of `m`. */
  lemma OnlyMatchFound<K>(m: seq<K>, r: seq<K>, p: K -> bool, x: K) returns (q: nat)
    requires multiset(r) == multiset(m) && x in m && p(x)
    requires forall j :: 0 <= j < |m| && p(m[j]) ==> m[j] == x
    ensures FirstMatch(r, p, 0) == Some(q) && r[q] == x
  {
    assert x in multiset(r);
    var i :| 0 <= i < |r| && r[i] == x;
    q := FirstMatch(r, p, 0).value;
    assert r[q] in multiset(m);
  }

  /** Replacing one element swaps one occurrence in the multiset. */
  lemma UpdateMultiset<K>(s: seq<K>, i: nat, v: K)
    requires i < |s|
    ensures multiset(s[i := v]) == multiset(s) - multiset{s[i]} + multiset{v}
  {
    assert s == s[..i] + [s[i]] + s[i + 1..];
    assert s[i := v] == s[..i] + [v] + s[i + 1..];
  }

  /** Putting back the element a replacement took out restores the
      multiset. */
  lemma UpdateBack<K>(r: seq<K>, q: nat, m: multiset<K>, a: K, b: K)
    requires q < |r| && r[q] == b && a in m
    requires multiset(r) == m - multiset{a} + multiset{b}
    ensures multiset(r[q := a]) == m
  {
    UpdateMultiset(r, q, a);
    var back := multiset(r[q := a]);
    forall x
      ensures back[x] == m[x]
    {
    }
  }

  /** Index of the first consecutive pair whose times enclose `t`. */
  function FirstBracket<K>(s: seq<K>, time: K -> real, t: real, from: nat): (r: Option<nat>)
    decreases |s| - from
    ensures r.Some? ==> from <= r.value && r.value + 1 < |s|
    ensures r.Some? ==> time(s[r.value]) <= t <= time(s[r.value + 1])
    ensures r.Some? ==> forall j :: from <= j < r.value ==> !(time(s[j]) <= t <= time(s[j + 1]))
    ensures r.None? ==> forall j :: from <= j && j + 1 < |s| ==> !(time(s[j]) <= t <= time(s[j + 1]))
  {
    if from + 1 >= |s| then None
    else if time(s[from]) <= t <= time(s[from + 1]) then Some(from)
    else FirstBracket(s, time, t, from + 1)
  }

  /** Scanning from a keyframe strictly earlier than `t` towards a last
      keyframe at or after `t` always finds a bracket, and the first bracket
      found has two distinct times, whether or not the list is ordered. So
      the `(time - t1) / (t2 - t1)` of the scan never divides by zero and
      the "no bracket" fallback is never reached. */
  lemma {:induction false} BracketFromBelow<K>(s: seq<K>, time: K -> real, t: real, from: nat)
    requires from + 1 < |s|
    requires time(s[from]) < t <= time(s[|s| - 1])
    decreases |s| - from
    ensures FirstBracket(s, time, t, from).Some?
    ensures var i := FirstBracket(s, time, t, from).value;
      time(s[i]) < time(s[i + 1])
  {
    if t > time(s[from + 1]) {
      BracketFromBelow(s, time, t, from + 1);
    }
  }

  /** Index of the first element satisfying `p` at or after `from`. */
  function FirstMatch<K>(s: seq<K>, p: K -> bool, from: nat): (r: Option<nat>)
    decreases |s| - from
    ensures r.Some? ==> from <= r.value < |s| && p(s[r.value])
    ensures r.Some? ==> forall j :: from <= j < r.value ==> !p(s[j])
    ensures r.None? ==> forall j :: from <= j < |s| ==> !p(s[j])
  {
    if from >= |s| then None
    else if p(s[from]) then Some(from)
    else FirstMatch(s, p, from + 1)
  }

  lemma FirstMatchAt<K>(s: seq<K>, p: K -> bool, k: nat)
    requires k < |s| && p(s[k])
    requires forall j :: 0 <= j < k ==> !p(s[j])
    ensures FirstMatch(s, p, 0) == Some(k)
  {
  }


  /** "`abs(kf.time - t) < tol`" as a keyframe predicate. */
  function Within<K>(time: K -> real, t: real, tol: real): K -> bool {
    k => Abs(time(k) - t) < tol
  }
}
