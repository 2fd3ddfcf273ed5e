/** The reusable command classes of pyspine/undo_redo_common.py:
    `StateSnapshotCommand`, `DictAddCommand`, `DictRemoveCommand`,
    `DictModifyCommand`, `ListAddCommand` and `ListRemoveCommand`.

    Each Python constructor records what it needs from the target at
    construction time; here that is a function from the current target to
    the command value. `execute` and `undo` become functions from the target
    before to the target after. */
module GenericCommands {
  import opened Types

  // ----- StateSnapshotCommand ----------------------------------------------

  /** `setattr(target, attribute, new_state)` / `old_state`. The attribute's
      value is the whole state of interest. */
  datatype Snapshot<V> = Snapshot(oldState: V, newState: V)

  function SnapshotExecute<V>(c: Snapshot<V>, current: V): V { c.newState }

  function SnapshotUndo<V>(c: Snapshot<V>, current: V): V { c.oldState }

  /** A snapshot whose old state was taken from the attribute undoes back to
      that value, and redo after undo gives the executed value again. */
  lemma SnapshotRoundTrip<V>(current: V, newState: V)
    ensures SnapshotUndo(Snapshot(current, newState), SnapshotExecute(Snapshot(current, newState), current)) == current
    ensures SnapshotExecute(Snapshot(current, newState), SnapshotUndo(Snapshot(current, newState), newState)) == newState
  {
  }

  // ----- Dictionary commands -----------------------------------------------

  /** `oldValue` is `Some` exactly when the key existed at construction
      (`key_existed`). */
  datatype DictCommand<K, V> =
    | DictAdd(key: K, value: V, oldValue: Option<V>)
    | DictRemove(key: K, oldValue: Option<V>)
    | DictModify(key: K, before: V, after: V)

  function Lookup<K, V>(d: map<K, V>, k: K): Option<V> {
    if k in d then Some(d[k]) else None
  }

  /** `DictAddCommand(target, key, value)`. */
  function NewDictAdd<K, V>(d: map<K, V>, key: K, value: V): DictCommand<K, V> {
    DictAdd(key, value, Lookup(d, key))
  }

  /** `DictRemoveCommand(target, key)`. */
  function NewDictRemove<K, V>(d: map<K, V>, key: K): DictCommand<K, V> {
    DictRemove(key, Lookup(d, key))
  }

  function DictExecute<K, V>(c: DictCommand<K, V>, d: map<K, V>): (r: map<K, V>)
    ensures c.DictAdd? ==> c.key in r && r[c.key] == c.value
    ensures c.DictRemove? ==> c.key !in r
    ensures c.DictModify? ==> c.key in r && r[c.key] == c.after
    ensures forall k :: k in d && k != c.key ==> k in r && r[k] == d[k]
    ensures forall k :: k in r && k != c.key ==> k in d
  {
    match c
    case DictAdd(k, v, _) => d[k := v]
    case DictRemove(k, _) => if k in d then d - {k} else d
    case DictModify(k, _, v) => d[k := v]
  }

  /** Undoing an add of a new key deletes it with `del`, which raises
      `KeyError` once the key is gone; the caller has to keep it. */
  function DictUndo<K, V>(c: DictCommand<K, V>, d: map<K, V>): (r: map<K, V>)
    requires c.DictAdd? && c.oldValue.None? ==> c.key in d
    ensures c.DictModify? ==> c.key in r && r[c.key] == c.before
    ensures !c.DictModify? ==> Lookup(r, c.key) == (if c.oldValue.Some? then c.oldValue else if c.DictAdd? then None else Lookup(d, c.key))
    ensures forall k :: k in d && k != c.key ==> k in r && r[k] == d[k]
    ensures forall k :: k in r && k != c.key ==> k in d
  {
    match c
    case DictAdd(k, _, prev) => if prev.Some? then d[k := prev.value] else d - {k}
    case DictRemove(k, prev) => if prev.Some? then d[k := prev.value] else d
    case DictModify(k, v, _) => d[k := v]
  }

  /** `DictAddCommand`: execute then undo gives back the dictionary as it was
      at construction, whether or not the key existed. */
  lemma DictAddRoundTrip<K, V>(d: map<K, V>, key: K, value: V)
    ensures DictUndo(NewDictAdd(d, key, value), DictExecute(NewDictAdd(d, key, value), d)) == d
  {
    var r := DictUndo(NewDictAdd(d, key, value), DictExecute(NewDictAdd(d, key, value), d));
    assert forall k :: k in r <==> k in d;
  }

  /** `DictRemoveCommand`: execute then undo gives back the dictionary as it
      was at construction, whether or not the key existed. */
  lemma DictRemoveRoundTrip<K, V>(d: map<K, V>, key: K)
    ensures DictUndo(NewDictRemove(d, key), DictExecute(NewDictRemove(d, key), d)) == d
  {
    var r := DictUndo(NewDictRemove(d, key), DictExecute(NewDictRemove(d, key), d));
    assert forall k :: k in r <==> k in d;
  }

  /** `DictModifyCommand` whose old value is the current entry. */
  lemma DictModifyRoundTrip<K, V>(d: map<K, V>, key: K, after: V)
    requires key in d
    ensures DictUndo(DictModify(key, d[key], after), DictExecute(DictModify(key, d[key], after), d)) == d
  {
    var r := DictUndo(DictModify(key, d[key], after), DictExecute(DictModify(key, d[key], after), d));
    assert forall k :: k in r <==> k in d;
  }

  /** For every dictionary command, redo after undo reproduces the effect of
      the first execute. */
  lemma DictRedoAfterUndo<K, V>(c: DictCommand<K, V>, d: map<K, V>)
    ensures DictExecute(c, DictUndo(c, DictExecute(c, d))) == DictExecute(c, d)
  {
    var a := DictExecute(c, d);
    var b := DictExecute(c, DictUndo(c, a));
    assert forall k :: k in b <==> k in a;
  }

  // ----- List commands -----------------------------------------------------

  /** `removed` is `None` when the index was invalid at construction. */
  datatype ListCommand<T> =
    | ListAdd(item: T, index: int)
    | ListRemove(index: int, removed: Option<T>)

  /** `ListAddCommand(target, item, index)`: a missing index means "append". */
  function NewListAdd<T>(l: seq<T>, item: T, index: Option<int>): (c: ListCommand<T>)
    ensures c.ListAdd? && c.item == item
    ensures index.None? ==> c.index == |l|
  {
    ListAdd(item, if index.None? then |l| else index.value)
  }

  /** `ListRemoveCommand(target, index)`. */
  function NewListRemove<T>(l: seq<T>, index: int): (c: ListCommand<T>)
    ensures c.ListRemove? && c.index == index
    ensures c.removed.Some? <==> 0 <= index < |l|
  {
    ListRemove(index, if 0 <= index < |l| then Some(l[index]) else None)
  }

  function ListExecute<T>(c: ListCommand<T>, l: seq<T>): (r: seq<T>)
    ensures c.ListAdd? ==> |r| == |l| + 1
    ensures c.ListAdd? ==> var k := PyInsertIndex(|l|, c.index);
      r[k] == c.item && r[..k] == l[..k] && r[k + 1..] == l[k..]
    ensures c.ListRemove? ==> |r| == if 0 <= c.index < |l| then |l| - 1 else |l|
    ensures c.ListRemove? && 0 <= c.index < |l| ==> r[..c.index] == l[..c.index] && r[c.index..] == l[c.index + 1..]
    ensures c.ListRemove? && !(0 <= c.index < |l|) ==> r == l
  {
    match c
    case ListAdd(x, i) => PyInsert(l, i, x)
    case ListRemove(i, _) => if 0 <= i < |l| then RemoveAt(l, i) else l
  }

  function ListUndo<T>(c: ListCommand<T>, l: seq<T>): (r: seq<T>)
    ensures c.ListAdd? ==> |r| == if 0 <= c.index < |l| then |l| - 1 else |l|
    ensures c.ListAdd? && 0 <= c.index < |l| ==> r[..c.index] == l[..c.index] && r[c.index..] == l[c.index + 1..]
    ensures c.ListAdd? && !(0 <= c.index < |l|) ==> r == l
    ensures c.ListRemove? ==> |r| == if c.removed.Some? then |l| + 1 else |l|
    ensures c.ListRemove? && c.removed.Some? ==> var k := PyInsertIndex(|l|, c.index);
      r[k] == c.removed.value && r[..k] == l[..k] && r[k + 1..] == l[k..]
    ensures c.ListRemove? && c.removed.None? ==> r == l
  {
    match c
    case ListAdd(_, i) => if 0 <= i < |l| then RemoveAt(l, i) else l
    case ListRemove(i, x) => if x.Some? then PyInsert(l, i, x.value) else l
  }

  /** `ListAddCommand` with 0 <= index <= len: execute then undo restores
      the list. */
  lemma ListAddRoundTrip<T>(l: seq<T>, item: T, index: Option<int>)
    requires index.Some? ==> 0 <= index.value <= |l|
    ensures ListUndo(NewListAdd(l, item, index), ListExecute(NewListAdd(l, item, index), l)) == l
  {
    var c := NewListAdd(l, item, index);
    InsertThenPop(l, c.index, item);
  }

  /** With an index past the end, `insert` appends but `undo` finds the index
      out of range and leaves the item in the list. */
  lemma ListAddPastEndIsNotUndone<T>(l: seq<T>, item: T, index: int)
    requires index > |l|
    ensures ListUndo(ListAdd(item, index), ListExecute(ListAdd(item, index), l)) == l + [item]
  {
    var r := ListExecute(ListAdd(item, index), l);
    assert r == l[..|l|] + [item] + l[|l|..];
    assert l[..|l|] == l;
  }

  /** `ListRemoveCommand` with a valid index: execute then undo restores the
      list. */
  lemma ListRemoveRoundTrip<T>(l: seq<T>, index: int)
    requires 0 <= index < |l|
    ensures ListUndo(NewListRemove(l, index), ListExecute(NewListRemove(l, index), l)) == l
  {
    PopThenInsert(l, index);
  }

  /** With an invalid index both directions leave the list alone. */
  lemma ListRemoveInvalidIsNoOp<T>(l: seq<T>, index: int)
    requires !(0 <= index < |l|)
    ensures ListExecute(NewListRemove(l, index), l) == l
    ensures ListUndo(NewListRemove(l, index), l) == l
  {
  }
}
