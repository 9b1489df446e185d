/** The command history object: a mutable list of commands and a pointer to
    the last applied one. The calls it makes on commands (`cancel` on undo,
    `execute` on redo) are recorded in the ghost `trace`, each with the value
    the pointer has when the command is called.
 */
module Historian {
  import HistorySpec
  import opened TwoStacks

  class CommandHistory<C> {
    var commands: seq<C>
    var pointer: int
    ghost var trace: seq<HistorySpec.Event<C>>

    /** The object's state as a value of the history state machine. */
    function State(): HistorySpec.History<C>
      reads this
    {
      HistorySpec.History(commands, pointer)
    }

    ghost predicate Valid()
      reads this
    {
      HistorySpec.Valid(State())
    }

    constructor ()
      ensures Valid()
      ensures commands == [] && pointer == -1
      ensures trace == []
    {
      commands := [];
      pointer := -1;
      trace := [];
    }

    /** Records a command that the caller has already applied; commands
        after the pointer are discarded. */
    method Add(command: C)
      requires Valid()
      modifies this
      ensures Valid()
      ensures State() == HistorySpec.Add(old(State()), command).after
      ensures commands == old(commands[..pointer + 1]) + [command]
      ensures pointer == old(pointer) + 1 && commands[pointer] == command
      ensures trace == old(trace)
    {
      if |commands| == 0 {
        commands := commands + [command];
        pointer := pointer + 1;
        return;
      }

      commands := commands[..pointer + 1];
      commands := commands + [command];

      pointer := pointer + 1;
    }

    /** Steps the pointer back and cancels the command it left; does nothing
        when no command is applied. */
    method Undo()
      requires Valid()
      modifies this
      ensures Valid()
      ensures State() == HistorySpec.Undo(old(State())).after
      ensures trace == old(trace) + HistorySpec.Undo(old(State())).calls
      ensures commands == old(commands)
      ensures old(pointer) >= 0 ==>
                pointer == old(pointer) - 1 &&
                trace == old(trace) + [HistorySpec.Cancel(commands[old(pointer)], pointer)]
      ensures old(pointer) == -1 ==> pointer == -1 && trace == old(trace)
    {
      if |commands| == 0 {
        return;
      }

      if !(0 <= pointer < |commands|) {
        return;
      }
      var command := commands[pointer];

      pointer := pointer - 1;
      trace := trace + [HistorySpec.Cancel(command, pointer)];
    }

    /** Steps the pointer forward and executes the command it reached; does
        nothing when no command follows the pointer. */
    method Redo()
      requires Valid()
      modifies this
      ensures Valid()
      ensures State() == HistorySpec.Redo(old(State())).after
      ensures trace == old(trace) + HistorySpec.Redo(old(State())).calls
      ensures commands == old(commands)
      ensures old(pointer) + 1 < |commands| ==>
                pointer == old(pointer) + 1 &&
                trace == old(trace) + [HistorySpec.Execute(commands[pointer], pointer)]
      ensures old(pointer) == |commands| - 1 ==> pointer == old(pointer) && trace == old(trace)
    {
      if |commands| == 0 {
        return;
      }

      if !(0 <= pointer + 1 < |commands|) {
        return;
      }
      var command := commands[pointer + 1];

      pointer := pointer + 1;
      trace := trace + [HistorySpec.Execute(command, pointer)];
    }

    /** Forgets every command; none of them is cancelled. */
    method Clear()
      requires Valid()
      modifies this
      ensures Valid()
      ensures State() == HistorySpec.Clear(old(State())).after
      ensures commands == [] && pointer == -1
      ensures trace == old(trace)
    {
      commands := [];
      pointer := -1;
    }
  }

  /** A client replaying the scenarios of the repository's tests against the
      contracts above: add after undo drops the undone command, undo cancels
      the current command, redo executes the next one, and clear resets. */
  method TestScenarios<C>(up: C, down: C, left: C)
  {
    var history := new CommandHistory<C>();
    assert history.State() == HistorySpec.Initial();

    history.Add(up);
    history.Add(down);
    assert history.commands == [up, down] && history.pointer == 1;

    history.Undo();
    assert history.commands == [up, down] && history.pointer == 0;
    assert history.trace == [HistorySpec.Cancel(down, 0)];
    assert Abs(history.State()) == Stacks([up], [down]);

    history.Add(left);
    assert history.commands == [up, left] && history.pointer == 1;

    history.Undo();
    history.Undo();
    history.Undo();
    assert history.pointer == -1;
    assert history.trace == [HistorySpec.Cancel(down, 0), HistorySpec.Cancel(left, 0), HistorySpec.Cancel(up, -1)];

    history.Redo();
    assert history.pointer == 0;
    assert history.trace[|history.trace| - 1] == HistorySpec.Execute(up, 0);

    history.Clear();
    assert history.commands == [] && history.pointer == -1;
    assert |history.trace| == 4;
  }
}
