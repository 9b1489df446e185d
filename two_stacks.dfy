/** An independent reference for the undo/redo log: a stack of applied
    commands and a stack of undone commands (the front of `undone` is the
    next command to redo). The array-plus-pointer history refines it.
 */
module TwoStacks {
  import opened HistorySpec

  datatype Stacks<C> = Stacks(done: seq<C>, undone: seq<C>)

  function StacksAdd<C>(s: Stacks<C>, c: C): Stacks<C>
  {
    Stacks(s.done + [c], [])
  }

  function StacksUndo<C>(s: Stacks<C>): Stacks<C>
  {
    if s.done == [] then s
    else Stacks(s.done[..|s.done| - 1], [s.done[|s.done| - 1]] + s.undone)
  }

  function StacksRedo<C>(s: Stacks<C>): Stacks<C>
  {
    if s.undone == [] then s
    else Stacks(s.done + [s.undone[0]], s.undone[1..])
  }

  /** The two stacks a valid history stands for. */
  function Abs<C>(h: History<C>): Stacks<C>
    requires Valid(h)
  {
    Stacks(Applied(h), Redoable(h))
  }

  /** The history that stands for a pair of stacks. */
  function Concrete<C>(s: Stacks<C>): (h: History<C>)
    ensures Valid(h) && Abs(h) == s
  {
    var h := History(s.done + s.undone, |s.done| - 1);
    assert Applied(h) == s.done;
    assert Redoable(h) == s.undone;
    h
  }

  /** A valid history is determined by its two stacks. */
  lemma AbsInjective<C>(h: History<C>)
    requires Valid(h)
    ensures Concrete(Abs(h)) == h
  {
  }

  /** `add` pushes onto the applied stack and empties the redo stack. */
  lemma AddRefines<C>(h: History<C>, c: C)
    requires Valid(h)
    ensures Abs(Add(h, c).after) == StacksAdd(Abs(h), c)
  {
  }

  /** `undo` moves the top of the applied stack onto the redo stack and
      cancels that command. */
  lemma UndoRefines<C>(h: History<C>)
    requires Valid(h)
    ensures Abs(Undo(h).after) == StacksUndo(Abs(h))
    ensures Abs(h).done != [] ==> Undo(h).calls == [Cancel(Abs(h).done[|Abs(h).done| - 1], |Abs(h).done| - 2)]
  {
  }

  /** `redo` moves the top of the redo stack onto the applied stack and
      executes that command. */
  lemma RedoRefines<C>(h: History<C>)
    requires Valid(h)
    ensures Abs(Redo(h).after) == StacksRedo(Abs(h))
    ensures Abs(h).undone != [] ==> Redo(h).calls == [Execute(Abs(h).undone[0], |Abs(h).done|)]
  {
  }

  /** `clear` empties both stacks. */
  lemma ClearRefines<C>(h: History<C>)
    ensures Abs(Clear(h).after) == Stacks([], [])
  {
  }
}
