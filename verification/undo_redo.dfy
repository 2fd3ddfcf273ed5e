/** The generic undo/redo history of pyspine/undo_redo_common.py (and its
    byte-identical twin under old_pyspine/).

    A Python command object carries its own `execute`/`undo` behaviour and a
    reference to the object it edits. Here the edited objects are gathered
    into one state value of type `S`, a command is a value of type `C`, and
    the manager is given the two dispatch functions `exec` and `unexec` that
    say what `command.execute()` and `command.undo()` do to that state. */
module UndoRedo {
  import opened Types

  /** Applies `f` to the commands of `cs` from first to last
      (`CompositeCommand.execute`). */
  function ApplyInOrder<S, C>(f: (C, S) -> S, cs: seq<C>, s: S): S
    decreases |cs|
  {
    if cs == [] then s else ApplyInOrder(f, cs[1..], f(cs[0], s))
  }

  /** Applies `f` to the commands of `cs` from last to first: the order in
      which commands leave the top of a stack, and the order of
      `CompositeCommand.undo`. */
  function ApplyFromTop<S, C>(f: (C, S) -> S, cs: seq<C>, s: S): S
    decreases |cs|
  {
    if cs == [] then s else ApplyFromTop(f, cs[..|cs| - 1], f(cs[|cs| - 1], s))
  }

  function Reverse<T>(s: seq<T>): (r: seq<T>)
    ensures |r| == |s|
    ensures forall i :: 0 <= i < |s| ==> r[i] == s[|s| - 1 - i]
  {
    if s == [] then [] else [s[|s| - 1]] + Reverse(s[..|s| - 1])
  }

  function Min(a: int, b: int): int { if a <= b then a else b }

  function Max0(a: int): nat { if a < 0 then 0 else a }

  /** `undo` of each command inverts its `execute`. */
  ghost predicate UndoInverts<S(!new), C(!new)>(exec: (C, S) -> S, unexec: (C, S) -> S) {
    forall c, s :: unexec(c, exec(c, s)) == s
  }

  /** `execute` of each command inverts its `undo`. */
  ghost predicate ExecInverts<S(!new), C(!new)>(exec: (C, S) -> S, unexec: (C, S) -> S) {
    forall c, s :: exec(c, unexec(c, s)) == s
  }

  /** Popping from the top reaches the elements of a sequence in the order of
      its reversal. */
  lemma {:induction false} FromTopIsReversedInOrder<S, C>(f: (C, S) -> S, cs: seq<C>, s: S)
    ensures ApplyFromTop(f, cs, s) == ApplyInOrder(f, Reverse(cs), s)
    decreases |cs|
  {
    if cs != [] {
      var last := cs[|cs| - 1];
      var rest := cs[..|cs| - 1];
      assert Reverse(cs) == [last] + Reverse(rest);
      assert Reverse(cs)[1..] == Reverse(rest);
      FromTopIsReversedInOrder(f, rest, f(last, s));
    }
  }

  lemma {:induction false} ReverseReverse<T>(s: seq<T>)
    ensures Reverse(Reverse(s)) == s
  {
  }

  /** `CompositeCommand`: if every child's `undo` inverts its `execute`, the
      composite's reverse-order `undo` inverts its in-order `execute`. */
  lemma {:induction false} CompositeUndoInvertsExecute<S(!new), C(!new)>(
    exec: (C, S) -> S, unexec: (C, S) -> S, cs: seq<C>, s: S)
    requires UndoInverts(exec, unexec)
    ensures ApplyFromTop(unexec, cs, ApplyInOrder(exec, cs, s)) == s
    decreases |cs|
  {
    if cs != [] {
      var t := ApplyInOrder(exec, cs, s);
      var mid := exec(cs[0], s);
      assert t == ApplyInOrder(exec, cs[1..], mid);
      // split the reverse application at the first command
      ApplyFromTopSplit(unexec, cs, t);
      CompositeUndoInvertsExecute(exec, unexec, cs[1..], mid);
    }
  }

  /** Undoing from the top peels off the tail first and the head last. */
  lemma {:induction false} ApplyFromTopSplit<S, C>(f: (C, S) -> S, cs: seq<C>, s: S)
    requires cs != []
    ensures ApplyFromTop(f, cs, s) == f(cs[0], ApplyFromTop(f, cs[1..], s))
    decreases |cs|
  {
    if |cs| > 1 {
      var last := cs[|cs| - 1];
      var init := cs[..|cs| - 1];
      assert init[1..] == cs[1..][..|cs[1..]| - 1];
      assert cs[1..][|cs[1..]| - 1] == last;
      ApplyFromTopSplit(f, init, f(last, s));
    } else {
      assert cs[..|cs| - 1] == [];
      assert cs[1..] == [];
    }
  }

  /** Undoing a block of commands and redoing the same block restores the
      state when each command's `execute` inverts its `undo`. */
  lemma {:induction false} RedoAfterUndoRestores<S(!new), C(!new)>(
    exec: (C, S) -> S, unexec: (C, S) -> S, moved: seq<C>, s: S)
    requires ExecInverts(exec, unexec)
    ensures ApplyFromTop(exec, Reverse(moved), ApplyFromTop(unexec, moved, s)) == s
    decreases |moved|
  {
    FromTopIsReversedInOrder(exec, Reverse(moved), ApplyFromTop(unexec, moved, s));
    ReverseReverse(moved);
    InOrderInvertsFromTop(exec, unexec, moved, s);
  }

  lemma {:induction false} InOrderInvertsFromTop<S(!new), C(!new)>(
    exec: (C, S) -> S, unexec: (C, S) -> S, cs: seq<C>, s: S)
    requires ExecInverts(exec, unexec)
    ensures ApplyInOrder(exec, cs, ApplyFromTop(unexec, cs, s)) == s
    decreases |cs|
  {
    if cs != [] {
      var y := ApplyFromTop(unexec, cs[1..], s);
      ApplyFromTopSplit(unexec, cs, s);
      assert exec(cs[0], unexec(cs[0], y)) == y;
      InOrderInvertsFromTop(exec, unexec, cs[1..], s);
    }
  }

  /** The oldest entries dropped so that at most `limit` remain, as the
      single `pop(0)` after each push does. */
  function Trim<C>(stack: seq<C>, limit: int): (r: seq<C>)
    requires 0 < |stack|
    ensures |stack| - 1 <= |r| <= |stack| && r == stack[|stack| - |r|..]
    ensures |stack| <= limit ==> r == stack
    ensures |stack| <= Max0(limit) + 1 ==> |r| <= Max0(limit)
  {
    if |stack| > limit then stack[1..] else stack
  }

  /** `UndoRedoManager`. The edited state lives beside the two stacks so
      that the methods can say what running the commands does to it. */
  class UndoRedoManager<S, C> {
    var state: S
    var undoStack: seq<C>
    var redoStack: seq<C>
    var enabled: bool
    const historyLimit: int
    const exec: (C, S) -> S
    const unexec: (C, S) -> S

    /** Both stacks together never hold more than the history limit:
        a push trims the undo stack and empties the redo stack, and undo
        and redo only move commands between them. */
    ghost predicate Valid()
      reads this
    {
      |undoStack| + |redoStack| <= Max0(historyLimit)
    }

    constructor (initial: S, exec: (C, S) -> S, unexec: (C, S) -> S, historyLimit: int := 50)
      ensures Valid()
      ensures state == initial && undoStack == [] && redoStack == [] && enabled
      ensures this.historyLimit == historyLimit && this.exec == exec && this.unexec == unexec
    {
      this.state := initial;
      this.exec := exec;
      this.unexec := unexec;
      this.historyLimit := historyLimit;
      undoStack := [];
      redoStack := [];
      enabled := true;
    }

    /** `execute_command`. */
    method ExecuteCommand(c: C)
      modifies this`state, this`undoStack, this`redoStack
      ensures old(Valid()) ==> Valid()
      ensures state == exec(c, old(state))
      ensures enabled == old(enabled)
      ensures !enabled ==> undoStack == old(undoStack) && redoStack == old(redoStack)
      ensures enabled ==> redoStack == [] && undoStack == Trim(old(undoStack) + [c], historyLimit)
      ensures enabled && historyLimit > 0 ==> |undoStack| > 0 && undoStack[|undoStack| - 1] == c
    {
      if !enabled {
        state := exec(c, state);
        return;
      }
      state := exec(c, state);
      undoStack := undoStack + [c];
      redoStack := [];
      if |undoStack| > historyLimit {
        undoStack := undoStack[1..];
      }
    }

    /** `undo(count)`: moves min(count, |undo|) commands from the top of the
        undo stack to the top of the redo stack, undoing each as it goes. */
    method Undo(count: int) returns (ok: bool)
      modifies this`state, this`undoStack, this`redoStack
      ensures old(Valid()) ==> Valid()
      ensures ok == (|old(undoStack)| > 0 && count > 0)
      ensures !ok ==> state == old(state) && undoStack == old(undoStack) && redoStack == old(redoStack)
      ensures ok ==>
        var n := Min(count, |old(undoStack)|);
        var moved := old(undoStack)[|old(undoStack)| - n..];
        && undoStack == old(undoStack)[..|old(undoStack)| - n]
        && redoStack == old(redoStack) + Reverse(moved)
        && state == ApplyFromTop(unexec, moved, old(state))
      ensures |undoStack| + |redoStack| == |old(undoStack)| + |old(redoStack)|
    {
      if |undoStack| == 0 || count <= 0 {
        return false;
      }
      var n := Min(count, |undoStack|);
      ghost var u0, r0, s0 := undoStack, redoStack, state;
      var i := 0;
      while i < n
        invariant 0 <= i <= n
        invariant undoStack == u0[..|u0| - i]
        invariant redoStack == r0 + Reverse(u0[|u0| - i..])
        invariant state == ApplyFromTop(unexec, u0[|u0| - i..], s0)
      {
        var c := undoStack[|undoStack| - 1];
        undoStack := undoStack[..|undoStack| - 1];
        state := unexec(c, state);
        redoStack := redoStack + [c];
        i := i + 1;
        StepFromTop(u0, i, s0, c);
      }
      ok := i > 0;
    }

    /** One more command taken from the top extends the moved suffix. */
    lemma StepFromTop(u0: seq<C>, i: nat, s0: S, c: C)
      requires 0 < i <= |u0|
      requires c == u0[|u0| - i]
      ensures unexec(c, ApplyFromTop(unexec, u0[|u0| - (i - 1)..], s0))
        == ApplyFromTop(unexec, u0[|u0| - i..], s0)
      ensures Reverse(u0[|u0| - (i - 1)..]) + [c] == Reverse(u0[|u0| - i..])
    {
      var suffix := u0[|u0| - i..];
      ApplyFromTopSplit(unexec, suffix, s0);
      assert suffix[0] == c;
      assert suffix[1..] == u0[|u0| - (i - 1)..];
    }

    /** `redo(count)`: mirrors `undo`, re-executing each command and pushing
        it back on the undo stack without applying the history limit. */
    method Redo(count: int) returns (ok: bool)
      modifies this`state, this`undoStack, this`redoStack
      ensures old(Valid()) ==> Valid()
      ensures ok == (|old(redoStack)| > 0 && count > 0)
      ensures !ok ==> state == old(state) && undoStack == old(undoStack) && redoStack == old(redoStack)
      ensures ok ==>
        var n := Min(count, |old(redoStack)|);
        var moved := old(redoStack)[|old(redoStack)| - n..];
        && redoStack == old(redoStack)[..|old(redoStack)| - n]
        && undoStack == old(undoStack) + Reverse(moved)
        && state == ApplyFromTop(exec, moved, old(state))
      ensures |undoStack| + |redoStack| == |old(undoStack)| + |old(redoStack)|
    {
      if |redoStack| == 0 || count <= 0 {
        return false;
      }
      var n := Min(count, |redoStack|);
      ghost var u0, r0, s0 := undoStack, redoStack, state;
      var i := 0;
      while i < n
        invariant 0 <= i <= n
        invariant redoStack == r0[..|r0| - i]
        invariant undoStack == u0 + Reverse(r0[|r0| - i..])
        invariant state == ApplyFromTop(exec, r0[|r0| - i..], s0)
      {
        var c := redoStack[|redoStack| - 1];
        redoStack := redoStack[..|redoStack| - 1];
        state := exec(c, state);
        undoStack := undoStack + [c];
        i := i + 1;
        StepRedo(r0, i, s0, c);
      }
      ok := i > 0;
    }

    lemma StepRedo(r0: seq<C>, i: nat, s0: S, c: C)
      requires 0 < i <= |r0|
      requires c == r0[|r0| - i]
      ensures exec(c, ApplyFromTop(exec, r0[|r0| - (i - 1)..], s0))
        == ApplyFromTop(exec, r0[|r0| - i..], s0)
      ensures Reverse(r0[|r0| - (i - 1)..]) + [c] == Reverse(r0[|r0| - i..])
    {
      var suffix := r0[|r0| - i..];
      ApplyFromTopSplit(exec, suffix, s0);
      assert suffix[0] == c;
      assert suffix[1..] == r0[|r0| - (i - 1)..];
    }

    /** What the editors do after a drag whose effect is already applied:
        `undo_stack.append(command)` followed by `redo_stack.clear()`. The
        state is left alone and the history limit is not applied. */
    method RecordPerformed(c: C)
      modifies this`undoStack, this`redoStack
      ensures undoStack == old(undoStack) + [c] && redoStack == []
      ensures state == old(state)
    {
      undoStack := undoStack + [c];
      redoStack := [];
    }

    /** `can_undo`. */
    function CanUndo(): (b: bool)
      reads this
      ensures b <==> undoStack != []
    {
      |undoStack| > 0
    }

    /** `can_redo`. */
    function CanRedo(): (b: bool)
      reads this
      ensures b <==> redoStack != []
    {
      |redoStack| > 0
    }

    /** `clear`. */
    method Clear()
      modifies this`undoStack, this`redoStack
      ensures Valid() && undoStack == [] && redoStack == []
    {
      undoStack := [];
      redoStack := [];
    }

    /** `get_undo_list`: the undo stack listed from the most recent command. */
    function UndoList(): (r: seq<C>)
      reads this
      ensures |r| == |undoStack|
      ensures |r| > 0 ==> r[0] == undoStack[|undoStack| - 1]
      ensures Reverse(r) == undoStack
    {
      ReverseReverse(undoStack);
      Reverse(undoStack)
    }

    /** `get_redo_list`. */
    function RedoList(): (r: seq<C>)
      reads this
      ensures |r| == |redoStack|
      ensures |r| > 0 ==> r[0] == redoStack[|redoStack| - 1]
      ensures Reverse(r) == redoStack
    {
      ReverseReverse(redoStack);
      Reverse(redoStack)
    }

    /** `disable`: commands still run, but are no longer recorded. */
    method Disable()
      modifies this`enabled
      ensures !enabled
    {
      enabled := false;
    }

    /** `enable`. */
    method Enable()
      modifies this`enabled
      ensures enabled
    {
      enabled := true;
    }
  }
}
