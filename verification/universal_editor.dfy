/** The record-based history and the selection state of `UniversalEditor`
    (pyspine/boneless_core_base.py), the base class of the "boneless"
    editors.

    `data_objects` maps an object type ("sprites", "instances", ...) to a
    dictionary of objects. A `Command` record carries an action, the type
    and id of the object it touches and the data before and after;
    `execute_command` applies the record, pushes it on `command_history`
    (capped at 50), and empties `redo_stack`. A rename is recorded as a
    "modify" record whose object type is the literal string "rename".

    Objects are values: an object either has a `name` attribute or not, and
    the rest of it is the payload `P`. Python's `None` is `NoneValue`. */
module UniversalEditor {
  import opened Types
  import Names
  import UndoRedo

  datatype Value<P> = NoneValue | Obj(name: Option<string>, payload: P)

  /** `if hasattr(obj, 'name'): obj.name = n`. */
  function WithName<P>(v: Value<P>, n: string): Value<P> {
    if v.Obj? && v.name.Some? then v.(name := Some(n)) else v
  }

  /** The object carries the name `n`, or carries no name at all. */
  predicate NamedOrAnonymous<P>(v: Value<P>, n: string) {
    v.NoneValue? || v.name.None? || v.name == Some(n)
  }

  datatype Action = Create | Modify | Delete | OtherAction

  /** A `Command`. `Rename` is the record `rename_object` pushes: action
      "modify", object type "rename", and old/new data holding both names,
      the object and its real type. */
  datatype Record<P> =
    | Edit(action: Action, objectType: string, objectId: string, oldData: Value<P>, newData: Value<P>)
    | Rename(oldName: string, newName: string, obj: Value<P>, objType: string)

  const RenameType := "rename"
  const MaxHistory := 50

  type Store<P> = map<string, map<string, Value<P>>>
  type Selection = map<string, seq<string>>

  /** The type dictionary a record reaches into when it is applied
      (`data_objects[command.object_type]`); actions other than
      create/modify/delete touch none. */
  predicate Touches<P>(r: Record<P>) {
    r.Rename? || r.action != OtherAction
  }

  /** A record can be undone against a store with these types without a
      `KeyError`. */
  predicate Undoable<P>(r: Record<P>, types: set<string>) {
    match r
    case Rename(_, _, _, t) => t in types
    case Edit(a, t, _, _, _) => t != RenameType && (a != OtherAction ==> t in types)
  }

  // ----- execute_command ---------------------------------------------------

  /** `execute_command`'s change to `data_objects`. `None` is the `KeyError`
      raised when the record names a type without a dictionary; a rename
      record always raises it, since its object type is "rename". */
  function ExecuteData<P>(d: Store<P>, r: Record<P>): (res: Option<Store<P>>)
    requires RenameType !in d
    ensures res.None? <==> r.Rename? || (r.action != OtherAction && r.objectType !in d)
    ensures res.Some? ==> res.value.Keys == d.Keys
    ensures res.Some? ==> forall t :: t in d && (t != r.objectType || !Touches(r)) ==> res.value[t] == d[t]
  {
    if r.Rename? then None
    else if r.action == OtherAction then Some(d)
    else if r.objectType !in d then None
    else
      var t := r.objectType;
      match r.action
      case Create => Some(d[t := d[t][r.objectId := r.newData]])
      case Modify => Some(d[t := d[t][r.objectId := r.newData]])
      case Delete => Some(if r.objectId in d[t] then d[t := d[t] - {r.objectId}] else d)
  }

  // ----- rename_object -----------------------------------------------------

  /** The generic `rename_object` body on `data_objects`: the object leaves
      the old key, takes the new name if it has a `name` attribute, and is
      stored under the new key. */
  function RenameData<P>(d: Store<P>, t: string, oldName: string, newName: string): (r: Store<P>)
    requires t in d && oldName in d[t]
    ensures r.Keys == d.Keys && forall u :: u in d && u != t ==> r[u] == d[u]
    ensures newName in r[t] && r[t][newName] == WithName(d[t][oldName], newName)
    ensures oldName != newName ==> oldName !in r[t]
    ensures forall k :: k != oldName && k != newName ==> (k in r[t] <==> k in d[t]) && (k in d[t] ==> r[t][k] == d[t][k])
  {
    d[t := (d[t] - {oldName})[newName := WithName(d[t][oldName], newName)]]
  }

  /** The selection list of type `t` after `l[l.index(a)] = b`, if `a` is
      selected. A type without a list is left without one. */
  function RenameSelected(sel: Selection, t: string, a: string, b: string): (r: Selection)
    ensures r.Keys == sel.Keys
    ensures forall u :: u in sel && u != t ==> r[u] == sel[u]
    ensures t in sel ==> r[t] == ReplaceFirst(sel[t], a, b)
  {
    if t in sel then sel[t := ReplaceFirst(sel[t], a, b)] else sel
  }

  /** `l.remove(x)` on the selection list of type `t`, if `x` is in it. */
  function Unselect(sel: Selection, t: string, x: string): (r: Selection)
    ensures r.Keys == sel.Keys
    ensures forall u :: u in sel && u != t ==> r[u] == sel[u]
    ensures t in sel ==> r[t] == RemoveFirst(sel[t], x)
  {
    if t in sel then sel[t := RemoveFirst(sel[t], x)] else sel
  }

  // ----- undo --------------------------------------------------------------

  /** `undo`'s change to `data_objects` and to the selection for the record
      it pops. */
  function UndoData<P>(d: Store<P>, sel: Selection, r: Record<P>): (res: (Store<P>, Selection))
    requires Undoable(r, d.Keys)
    ensures res.0.Keys == d.Keys
  {
    match r
    case Rename(o, n, obj, t) =>
      (d[t := (d[t] - {n})[o := WithName(obj, o)]], RenameSelected(sel, t, n, o))
    case Edit(a, t, id, prev, _) =>
      match a
      case Create =>
        if id in d[t] then (d[t := d[t] - {id}], Unselect(sel, t, id)) else (d, sel)
      case Modify => (d[t := d[t][id := prev]], sel)
      case Delete => (d[t := d[t][id := prev]], sel)
      case OtherAction => (d, sel)
  }

  /** The old data of a record describes the store it is executed on: a
      created id was absent, a modified or deleted object is the one
      recorded as old data. */
  ghost predicate Describes<P>(d: Store<P>, r: Record<P>) {
    r.Edit? && r.objectType in d &&
    match r.action
    case Create => r.objectId !in d[r.objectType]
    case Modify => r.objectId in d[r.objectType] && d[r.objectType][r.objectId] == r.oldData
    case Delete => r.objectId in d[r.objectType] && d[r.objectType][r.objectId] == r.oldData
    case OtherAction => true
  }

  /** Undo after execute restores `data_objects` for every record that
      describes the store, and the selection too unless the created id was
      already selected. */
  lemma UndoAfterExecute<P>(d: Store<P>, sel: Selection, r: Record<P>)
    requires RenameType !in d && Describes(d, r)
    ensures ExecuteData(d, r).Some?
    ensures UndoData(ExecuteData(d, r).value, sel, r).0 == d
    ensures UndoData(ExecuteData(d, r).value, sel, r).1 == (if r.action == Create then Unselect(sel, r.objectType, r.objectId) else sel)
  {
    var d1 := ExecuteData(d, r).value;
    var t := r.objectType;
    match r.action
    case Create =>
      assert d1 == d[t := d[t][r.objectId := r.newData]];
      assert d1[t] - {r.objectId} == d[t];
      assert d1[t := d[t]] == d;
    case Modify =>
      assert d1[t][r.objectId := r.oldData] == d[t];
      assert d1[t := d[t]] == d;
    case Delete =>
      assert d1[t][r.objectId := r.oldData] == d[t];
      assert d1[t := d[t]] == d;
    case OtherAction =>
  }

  /** Undoing a rename record restores `data_objects` when the new name was
      free and the object carried the old name (or none), and restores the
      selection when the new name was not selected. */
  lemma UndoAfterRename<P>(d: Store<P>, sel: Selection, t: string, o: string, n: string)
    requires t in d && o in d[t] && n !in d[t] && NamedOrAnonymous(d[t][o], o)
    requires t in sel ==> n !in sel[t]
    ensures UndoData(RenameData(d, t, o, n), RenameSelected(sel, t, o, n),
                     Rename(o, n, WithName(d[t][o], n), t)) == (d, sel)
  {
    var rec := Rename(o, n, WithName(d[t][o], n), t);
    var d1 := RenameData(d, t, o, n);
    var sel1 := RenameSelected(sel, t, o, n);
    RenameUndoneData(d, t, o, n);
    RenameUndoneSelection(sel, t, o, n);
    assert UndoData(d1, sel1, rec) == (d1[t := (d1[t] - {n})[o := WithName(rec.obj, o)]], RenameSelected(sel1, t, n, o));
  }

  lemma RenameUndoneData<P>(d: Store<P>, t: string, o: string, n: string)
    requires t in d && o in d[t] && n !in d[t] && NamedOrAnonymous(d[t][o], o)
    ensures var d1 := RenameData(d, t, o, n);
      d1[t := (d1[t] - {n})[o := WithName(WithName(d[t][o], n), o)]] == d
  {
    var d1 := RenameData(d, t, o, n);
    var obj := WithName(d[t][o], n);
    assert WithName(obj, o) == d[t][o];
    var m := (d1[t] - {n})[o := WithName(obj, o)];
    assert m == d[t];
  }

  lemma RenameUndoneSelection(sel: Selection, t: string, o: string, n: string)
    requires t in sel ==> n !in sel[t]
    ensures RenameSelected(RenameSelected(sel, t, o, n), t, n, o) == sel
  {
    if t in sel {
      ReplaceFirstBack(sel[t], o, n);
      assert RenameSelected(RenameSelected(sel, t, o, n), t, n, o) == sel[t := sel[t]];
    }
  }

  // ----- redo --------------------------------------------------------------

  /** The corrected redo step on `data_objects`: a rename record is renamed
      again, any other record is executed again. */
  function RedoData<P>(d: Store<P>, r: Record<P>): (res: Option<Store<P>>)
    requires RenameType !in d
    ensures r.Edit? ==> res == ExecuteData(d, r)
    ensures r.Rename? ==> (res.Some? <==> r.objType in d && r.oldName in d[r.objType])
  {
    match r
    case Rename(o, n, _, t) => if t in d && o in d[t] then Some(RenameData(d, t, o, n)) else None
    case Edit(_, _, _, _, _) => ExecuteData(d, r)
  }

  /** Redo after undo gives back the store the record produced, for every
      record, renames included. */
  lemma RedoAfterUndo<P>(d: Store<P>, sel: Selection, r: Record<P>)
    requires RenameType !in d && Undoable(r, d.Keys)
    requires r.Rename? ==> r.oldName != r.newName
    ensures r.Edit? && ExecuteData(d, r).Some? ==>
      RedoData(UndoData(ExecuteData(d, r).value, sel, r).0, r) == ExecuteData(d, r)
    ensures r.Rename? && r.oldName in d[r.objType] && r.obj == WithName(d[r.objType][r.oldName], r.newName) ==>
      RedoData(UndoData(RenameData(d, r.objType, r.oldName, r.newName), sel, r).0, r)
        == Some(RenameData(d, r.objType, r.oldName, r.newName))
  {
    if r.Edit? && ExecuteData(d, r).Some? {
      RedoEditAfterUndo(d, sel, r);
    }
    if r.Rename? && r.oldName in d[r.objType] && r.obj == WithName(d[r.objType][r.oldName], r.newName) {
      RedoRenameAfterUndo(d, sel, r);
    }
  }

  lemma RedoEditAfterUndo<P>(d: Store<P>, sel: Selection, r: Record<P>)
    requires RenameType !in d && Undoable(r, d.Keys)
    requires r.Edit? && ExecuteData(d, r).Some?
    ensures RedoData(UndoData(ExecuteData(d, r).value, sel, r).0, r) == ExecuteData(d, r)
  {
    var d1 := ExecuteData(d, r).value;
    var d2 := UndoData(d1, sel, r).0;
    var t := r.objectType;
    if r.action != OtherAction {
      match r.action
      case Create =>
        assert d2[t][r.objectId := r.newData] == d1[t];
        assert d2[t := d1[t]] == d1;
      case Modify =>
        assert d2[t][r.objectId := r.newData] == d1[t];
        assert d2[t := d1[t]] == d1;
      case Delete =>
        assert r.objectId !in d1[t];
        assert d2[t] - {r.objectId} == d1[t];
        assert d2[t := d1[t]] == d1;
    }
  }

  lemma RedoRenameAfterUndo<P>(d: Store<P>, sel: Selection, r: Record<P>)
    requires RenameType !in d && Undoable(r, d.Keys)
    requires r.Rename? && r.oldName != r.newName
    requires r.oldName in d[r.objType] && r.obj == WithName(d[r.objType][r.oldName], r.newName)
    ensures RedoData(UndoData(RenameData(d, r.objType, r.oldName, r.newName), sel, r).0, r)
      == Some(RenameData(d, r.objType, r.oldName, r.newName))
  {
    var t, o, n := r.objType, r.oldName, r.newName;
    var d1 := RenameData(d, t, o, n);
    var d2 := UndoData(d1, sel, r).0;
    assert d2[t][o] == WithName(r.obj, o);
    assert WithName(d2[t][o], n) == r.obj;
    assert (d2[t] - {o})[n := r.obj] == d1[t];
    assert d2[t := d1[t]] == d1;
  }

  /** An entry of the cursor's hit list: object type, id and the part that
      was hit (the interaction data of `get_objects_at_position`). */
  datatype Hit = Hit(objectType: string, objectId: string, part: string)

  predicate IsSpace(c: char) { c == ' ' || c == '\t' || c == '\n' || c == '\r' || c == 11 as char || c == 12 as char }

  /** The number of whitespace characters `s` starts with. */
  function LeadingSpaces(s: string): (n: nat)
    ensures n <= |s|
    ensures forall i :: 0 <= i < n ==> IsSpace(s[i])
    ensures n < |s| ==> !IsSpace(s[n])
  {
    if s != [] && IsSpace(s[0]) then 1 + LeadingSpaces(s[1..]) else 0
  }

  /** The number of whitespace characters `s` ends with. */
  function TrailingSpaces(s: string): (n: nat)
    ensures n <= |s|
    ensures forall i :: |s| - n <= i < |s| ==> IsSpace(s[i])
    ensures n < |s| ==> !IsSpace(s[|s| - 1 - n])
  {
    if s != [] && IsSpace(s[|s| - 1]) then 1 + TrailingSpaces(s[..|s| - 1]) else 0
  }

  /** `str.strip()`: what is left between the leading and the trailing
      whitespace; empty exactly when `s` is all whitespace. */
  function Strip(s: string): (r: string)
    ensures |r| <= |s|
    ensures r != [] ==> !IsSpace(r[0]) && !IsSpace(r[|r| - 1])
    ensures r == [] <==> forall i :: 0 <= i < |s| ==> IsSpace(s[i])
  {
    var a := LeadingSpaces(s);
    var rest := s[a..];
    var r := rest[..|rest| - TrailingSpaces(rest)];
    assert r != [] ==> r[0] == s[a];
    r
  }

  /** `object_type.rstrip('s')`. */
  function StripTrailingS(s: string): (r: string)
    ensures |r| <= |s| && r == s[..|r|]
    ensures r == [] || r[|r| - 1] != 's'
    ensures forall i :: |r| <= i < |s| ==> s[i] == 's'
  {
    if s != [] && s[|s| - 1] == 's' then StripTrailingS(s[..|s| - 1]) else s
  }

  /** `UniversalEditor`'s history, data and selection state. */
  class Editor<P> {
    var dataObjects: Store<P>
    var history: seq<Record<P>>
    var redoStack: seq<Record<P>>
    var selected: Selection
    var objectsAtCursor: seq<Hit>
    var cycleIndex: int
    var lastClickPos: Option<(int, int)>
    var editingName: bool
    var editingObjectId: Option<string>
    var editingObjectType: Option<string>
    var editingText: string

    /** No object type is literally "rename", every recorded command can be
        undone against the current types, the two stacks together stay
        within the history cap, and the cycle index points into the hit
        list (or is 0 when there is none). */
    ghost predicate Valid()
      reads this
    {
      RenameType !in dataObjects &&
      (forall r :: r in history ==> Undoable(r, dataObjects.Keys)) &&
      (forall r :: r in redoStack ==> Undoable(r, dataObjects.Keys)) &&
      |history| + |redoStack| <= MaxHistory &&
      (objectsAtCursor == [] ==> cycleIndex == 0) &&
      (objectsAtCursor != [] ==> 0 <= cycleIndex < |objectsAtCursor|)
    }

    /** `setup_data_structures` gives each editor its type dictionaries. */
    constructor (types: set<string>)
      requires RenameType !in types
      ensures Valid()
      ensures dataObjects == map t | t in types :: map[]
      ensures history == [] && redoStack == [] && selected == map[]
      ensures objectsAtCursor == [] && cycleIndex == 0 && lastClickPos.None? && !editingName
    {
      dataObjects := map t | t in types :: map[];
      history := [];
      redoStack := [];
      selected := map[];
      objectsAtCursor := [];
      cycleIndex := 0;
      lastClickPos := None;
      editingName := false;
      editingObjectId := None;
      editingObjectType := None;
      editingText := "";
    }

    /** `execute_command`. When the record names a missing type the
        `KeyError` leaves everything as it was (`ok` is false). */
    method ExecuteCommand(r: Record<P>) returns (ok: bool)
      requires Valid()
      requires r.Edit? ==> r.objectType != RenameType
      modifies this`dataObjects, this`history, this`redoStack
      ensures Valid()
      ensures ok <==> ExecuteData(old(dataObjects), r).Some?
      ensures ok ==> dataObjects == ExecuteData(old(dataObjects), r).value
      ensures ok ==> history == UndoRedo.Trim(old(history) + [r], MaxHistory) && redoStack == []
      ensures ok ==> history[|history| - 1] == r && |history| <= MaxHistory
      ensures !ok ==> dataObjects == old(dataObjects) && history == old(history) && redoStack == old(redoStack)
    {
      var res := ExecuteData(dataObjects, r);
      if res.None? {
        return false;
      }
      dataObjects := res.value;
      history := history + [r];
      redoStack := [];
      if |history| > MaxHistory {
        history := history[1..];
      }
      ok := true;
    }

    /** `undo`: the newest record moves to the redo stack and is reversed. */
    method Undo()
      requires Valid()
      modifies this`dataObjects, this`selected, this`history, this`redoStack
      ensures Valid()
      ensures old(history) == [] ==> dataObjects == old(dataObjects) && selected == old(selected) && history == [] && redoStack == old(redoStack)
      ensures old(history) != [] ==>
        var top := old(history)[|old(history)| - 1];
        history == old(history)[..|old(history)| - 1] && redoStack == old(redoStack) + [top] &&
        (dataObjects, selected) == UndoData(old(dataObjects), old(selected), top)
    {
      if history == [] {
        return;
      }
      var top := history[|history| - 1];
      history := history[..|history| - 1];
      redoStack := redoStack + [top];
      var res := UndoData(dataObjects, selected, top);
      dataObjects, selected := res.0, res.1;
    }

    /** `redo` as written: the popped record goes through `execute_command`,
        which empties the rest of the redo stack; a rename record raises
        `KeyError` there and is lost. */
    method Redo() returns (ok: bool)
      requires Valid()
      modifies this`dataObjects, this`history, this`redoStack
      ensures Valid()
      ensures old(redoStack) == [] ==> !ok && dataObjects == old(dataObjects) && history == old(history) && redoStack == []
      ensures old(redoStack) != [] ==>
        var top := old(redoStack)[|old(redoStack)| - 1];
        (ok <==> ExecuteData(old(dataObjects), top).Some?) &&
        (ok ==> dataObjects == ExecuteData(old(dataObjects), top).value &&
                history == UndoRedo.Trim(old(history) + [top], MaxHistory) && redoStack == []) &&
        (!ok ==> dataObjects == old(dataObjects) && history == old(history) &&
                 redoStack == old(redoStack)[..|old(redoStack)| - 1])
    {
      if redoStack == [] {
        return false;
      }
      var top := redoStack[|redoStack| - 1];
      assert Undoable(top, dataObjects.Keys);
      redoStack := redoStack[..|redoStack| - 1];
      ok := ExecuteCommand(top);
      if ok {
        history := history[..|history| - 1] + [top];
      }
    }

    /** The redo the method's comment describes: the record is re-applied
        (a rename renames again), moves back onto the history, and the rest
        of the redo stack stays available. */
    method RedoFixed() returns (ok: bool)
      requires Valid()
      modifies this`dataObjects, this`history, this`redoStack
      ensures Valid()
      ensures old(redoStack) == [] ==> !ok && dataObjects == old(dataObjects) && history == old(history) && redoStack == []
      ensures old(redoStack) != [] ==>
        var top := old(redoStack)[|old(redoStack)| - 1];
        (ok <==> RedoData(old(dataObjects), top).Some?) &&
        (ok ==> dataObjects == RedoData(old(dataObjects), top).value &&
                history == old(history) + [top] &&
                redoStack == old(redoStack)[..|old(redoStack)| - 1]) &&
        (!ok ==> dataObjects == old(dataObjects) && history == old(history) && redoStack == old(redoStack))
    {
      if redoStack == [] {
        return false;
      }
      var top := redoStack[|redoStack| - 1];
      var res := RedoData(dataObjects, top);
      if res.None? {
        return false;
      }
      ok := true;
      dataObjects := res.value;
      history := history + [top];
      redoStack := redoStack[..|redoStack| - 1];
    }

    /** `rename_object`: false for an unknown type or name; otherwise the
        object is stored under the new key only, with its name and selection
        entry updated, and a rename record is pushed. */
    method RenameObject(t: string, oldName: string, newName: string) returns (ok: bool)
      requires Valid()
      modifies this`dataObjects, this`selected, this`history, this`redoStack
      ensures Valid()
      ensures ok <==> t in old(dataObjects) && oldName in old(dataObjects)[t]
      ensures !ok ==> dataObjects == old(dataObjects) && selected == old(selected) && history == old(history) && redoStack == old(redoStack)
      ensures ok ==>
        dataObjects == RenameData(old(dataObjects), t, oldName, newName) &&
        selected == RenameSelected(old(selected), t, oldName, newName) &&
        history == UndoRedo.Trim(old(history) + [Rename(oldName, newName, WithName(old(dataObjects)[t][oldName], newName), t)], MaxHistory) &&
        redoStack == []
    {
      if t !in dataObjects || oldName !in dataObjects[t] {
        return false;
      }
      var obj := WithName(dataObjects[t][oldName], newName);
      dataObjects := RenameData(dataObjects, t, oldName, newName);
      selected := RenameSelected(selected, t, oldName, newName);
      history := history + [Rename(oldName, newName, obj, t)];
      redoStack := [];
      if |history| > MaxHistory {
        history := history[1..];
      }
      ok := true;
    }

    /** `start_name_edit`. */
    method StartNameEdit(id: string, t: string)
      modifies this`editingName, this`editingObjectId, this`editingObjectType, this`editingText
      ensures editingName && editingObjectId == Some(id) && editingObjectType == Some(t) && editingText == id
    {
      editingName, editingObjectId, editingObjectType, editingText := true, Some(id), Some(t), id;
    }

    /** `complete_name_edit`: the stripped text renames the object only when
        it is non-empty, differs from the old name and is not already a key
        of the type; the edit is then closed whatever happened. */
    method CompleteNameEdit()
      requires Valid()
      modifies this
      ensures Valid()
      ensures !old(editingName) || old(editingObjectId).None? || old(editingObjectId).value == "" ==>
        dataObjects == old(dataObjects) && editingName == old(editingName) && history == old(history)
      ensures old(editingName) && old(editingObjectId).Some? && old(editingObjectId).value != "" ==>
        !editingName && editingObjectId.None? && editingObjectType.None? && editingText == ""
      ensures old(editingName) && old(editingObjectId).Some? && old(editingObjectId).value != "" ==>
        var n := Strip(old(editingText));
        var o := old(editingObjectId).value;
        var renames := n != "" && n != o && old(editingObjectType).Some? &&
                       old(editingObjectType).value in old(dataObjects) &&
                       n !in old(dataObjects)[old(editingObjectType).value] &&
                       o in old(dataObjects)[old(editingObjectType).value];
        (renames ==> dataObjects == RenameData(old(dataObjects), old(editingObjectType).value, o, n)) &&
        (!renames ==> dataObjects == old(dataObjects) && history == old(history))
      ensures objectsAtCursor == old(objectsAtCursor) && cycleIndex == old(cycleIndex)
    {
      if !editingName || editingObjectId.None? || editingObjectId.value == "" {
        return;
      }
      var newName := Strip(editingText);
      var oldName := editingObjectId.value;
      var t := editingObjectType;
      if newName != "" && newName != oldName && !(t.Some? && t.value in dataObjects && newName in dataObjects[t.value]) {
        if t.Some? {
          var _ := RenameObject(t.value, oldName, newName);
        }
      }
      CancelNameEdit();
    }

    /** `cancel_name_edit`. */
    method CancelNameEdit()
      modifies this`editingName, this`editingObjectId, this`editingObjectType, this`editingText
      ensures !editingName && editingObjectId.None? && editingObjectType.None? && editingText == ""
    {
      editingName, editingObjectId, editingObjectType, editingText := false, None, None, "";
    }

    // ----- selection -------------------------------------------------------

    /** `select_object`: without multi-select exactly this object is
        selected afterwards; an id is never listed twice. */
    method SelectObject(t: string, id: string, multi: bool)
      modifies this`selected
      ensures !multi ==> selected == map[t := [id]]
      ensures multi ==> selected == old(selected)[t := AppendOnce(if t in old(selected) then old(selected)[t] else [], id)]
      ensures IsObjectSelected(t, id)
      ensures Valid() == old(Valid())
    {
      if !multi {
        selected := map[];
      }
      if t !in selected {
        selected := selected[t := []];
      }
      selected := selected[t := AppendOnce(selected[t], id)];
      assert !multi ==> selected[t] == [id];
    }

    /** `deselect_object`. */
    method DeselectObject(t: string, id: string)
      modifies this`selected
      ensures selected == Unselect(old(selected), t, id)
    {
      selected := Unselect(selected, t, id);
    }

    /** `clear_selection`. */
    method ClearSelection()
      modifies this`selected
      ensures old(Valid()) ==> Valid()
      ensures selected == map[]
      ensures forall t, id :: !IsObjectSelected(t, id)
    {
      selected := map[];
    }

    /** `is_object_selected`. */
    function IsObjectSelected(t: string, id: string): (b: bool)
      reads this
      ensures b <==> t in selected && id in selected[t]
    {
      id in GetSelectedObjects(t)
    }

    /** `get_selected_objects`: the list, or empty for an unknown type. */
    function GetSelectedObjects(t: string): (r: seq<string>)
      reads this
      ensures t in selected ==> r == selected[t]
      ensures t !in selected ==> r == []
    {
      if t in selected then selected[t] else []
    }

    /** `get_first_selected`. */
    function GetFirstSelected(t: string): (r: Option<string>)
      reads this
      ensures r.None? <==> GetSelectedObjects(t) == []
      ensures r.Some? ==> IsObjectSelected(t, r.value) && r.value == selected[t][0]
    {
      var s := GetSelectedObjects(t);
      if s == [] then None else Some(s[0])
    }

    // ----- selection cycling -------------------------------------------------

    /** `handle_selection_at_position`. `near` is the outcome of the
        distance test `sqrt(dx*dx + dy*dy) < click_tolerance` against the
        previous click, which only counts when there was one. */
    method HandleSelectionAtPosition(hits: seq<Hit>, near: bool, screenPos: (int, int))
      requires Valid()
      modifies this`selected, this`objectsAtCursor, this`cycleIndex, this`lastClickPos
      ensures Valid()
      ensures lastClickPos == Some(screenPos)
      ensures hits == [] ==> selected == map[] && objectsAtCursor == [] && cycleIndex == 0
      ensures hits != [] ==> objectsAtCursor == hits && 0 <= cycleIndex < |hits|
      ensures hits != [] && old(lastClickPos).Some? && near && old(objectsAtCursor) == hits ==>
        cycleIndex == (old(cycleIndex) + 1) % |hits|
      ensures hits != [] && !(old(lastClickPos).Some? && near && old(objectsAtCursor) == hits) ==>
        cycleIndex == 0
      ensures hits != [] ==> selected == map[hits[cycleIndex].objectType := [hits[cycleIndex].objectId]]
    {
      var sameArea := lastClickPos.Some? && near;
      if hits != [] {
        if sameArea && objectsAtCursor == hits {
          cycleIndex := (cycleIndex + 1) % |hits|;
        } else {
          objectsAtCursor := hits;
          cycleIndex := 0;
        }
        var h := hits[cycleIndex];
        SelectObject(h.objectType, h.objectId, false);
      } else {
        ClearSelection();
        objectsAtCursor := [];
        cycleIndex := 0;
      }
      lastClickPos := Some(screenPos);
    }

    /** `cycle_selection`: with more than one hit, the index advances
        modulo the hit count and that object becomes the selection. */
    method CycleSelection()
      requires Valid()
      modifies this`selected, this`cycleIndex
      ensures Valid()
      ensures |objectsAtCursor| <= 1 ==> selected == old(selected) && cycleIndex == old(cycleIndex)
      ensures |objectsAtCursor| > 1 ==>
        cycleIndex == (old(cycleIndex) + 1) % |objectsAtCursor| &&
        selected == map[objectsAtCursor[cycleIndex].objectType := [objectsAtCursor[cycleIndex].objectId]]
    {
      if |objectsAtCursor| > 1 {
        cycleIndex := (cycleIndex + 1) % |objectsAtCursor|;
        var h := objectsAtCursor[cycleIndex];
        SelectObject(h.objectType, h.objectId, false);
      }
    }

    // ----- names -------------------------------------------------------------

    /** `get_next_object_name`: the base defaults to the type without its
        trailing "s" plus "_"; an unknown type gives base + "1"; otherwise
        the smallest unused numeric suffix, so the name is free. */
    method GetNextObjectName(t: string, base: Option<string>) returns (name: string)
      ensures var b := if base.Some? then base.value else StripTrailingS(t) + "_";
        exists k: nat :: k >= 1 && name == b + Names.Digits(k) &&
          (t in dataObjects ==> !Names.SuffixUsed(dataObjects[t].Keys, b, k) &&
                                (forall j :: 1 <= j < k ==> Names.SuffixUsed(dataObjects[t].Keys, b, j)))
      ensures t !in dataObjects ==> name == (if base.Some? then base.value else StripTrailingS(t) + "_") + "1"
      ensures t in dataObjects ==> name !in dataObjects[t]
    {
      var b := if base.Some? then base.value else StripTrailingS(t) + "_";
      if t !in dataObjects {
        assert Names.Digits(1) == "1";
        return b + "1";
      }
      var k;
      name, k := Names.NextFreeName(dataObjects[t].Keys, b);
    }
  }
}
