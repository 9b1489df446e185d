# historian-js command history in Dafny

This project models `CommandHistory`, the linear undo/redo log of historian-js.
The log keeps the recorded commands in order and a `pointer` to the last applied one, with -1 meaning none.
- `add` records a command the caller has already applied. It discards every command after the pointer, appends the new one and advances the pointer. This is the browser's "back, then navigate" behaviour.
- `undo` steps the pointer back, then calls `cancel` on the command it left.
- `redo` steps the pointer forward, then calls `execute` on the command it reached.
- Both are silent no-ops at the ends of the log.
- `clear` forgets every command without cancelling any.

The model has three modules:
- `HistorySpec` (`history_spec.dfy`) is the log as a state machine over values `History(commands, pointer)`. Each operation returns the next history and the calls it made on commands. A call is an `Event`, `Cancel(c, p)` or `Execute(c, p)`, where `p` is the pointer's value when the command runs. This records that the pointer moves before the command is called. The module also proves facts about repeated undo and redo, about repeated add, and about arbitrary sequences of operations.
- `TwoStacks` (`two_stacks.dfy`) is an independent reference model: a stack of applied commands and a stack of undone commands. It proves that the array-plus-pointer history refines it, operation by operation.
- `Historian` (`command_history.dfy`) is the class `CommandHistory`. It has the mutable fields `commands` and `pointer`, plus a ghost `trace` of the calls made on commands. Its methods follow the source statement by statement and are specified by the `HistorySpec` functions. The method `TestScenarios` replays the scenarios of `src/historian/index.spec.ts` as a client of those contracts.

Commands are a type parameter: the history never looks inside them. Their `cancel` and `execute` effects appear only as events in the trace.

## Model

| member | source | states |
|---|---|---|
| HistorySpec.Initial | src/historian/CommandHistory.ts:15-19 | a fresh history is empty and satisfies the invariant -1 <= pointer < length(commands) |
| HistorySpec.Add | src/historian/CommandHistory.ts:27-38 | the empty-log branch and the truncate-and-append branch agree: commands become old commands[..pointer+1] + [c], the pointer advances by one onto c, the length is old pointer + 2, nothing is left to redo, no command is called, the invariant is kept |
| HistorySpec.Undo | src/historian/CommandHistory.ts:43-55 | commands unchanged; when the pointer designates a command the pointer drops by one and exactly one cancel is made, on that command, observing the already decremented pointer; otherwise nothing changes and nothing is called; the invariant is kept |
| HistorySpec.Redo | src/historian/CommandHistory.ts:60-72 | commands unchanged; when a command follows the pointer the pointer rises by one and exactly one execute is made, on that command, observing the already incremented pointer; otherwise nothing changes and nothing is called; the invariant is kept |
| HistorySpec.Clear | src/historian/CommandHistory.ts:74-77 | the result is an empty, valid history (so pointer -1) and no command is cancelled or executed |
| HistorySpec.Apply | src/historian/CommandHistory.ts:3-8 | each of the four interface operations keeps the invariant and calls at most one command |
| HistorySpec.Run | src/historian/CommandHistory.ts:14-78 | any sequence of operations from a valid history keeps the invariant, and makes at most one call per operation |
| HistorySpec.AddAllAppends | src/historian/CommandHistory.ts:27-38 | adding commands one by one while the pointer is on the last command appends them in insertion order and moves the pointer by their number |
| HistorySpec.AddAllFromInitial | src/historian/index.spec.ts:15-26 | adding n commands to a fresh history gives exactly those commands with pointer n - 1 |
| HistorySpec.UndoTimesWalksBack | src/historian/CommandHistory.ts:43-55 | k undos leave commands unchanged, move the pointer to max(-1, pointer - k), and cancel commands[pointer], commands[pointer-1], ... in that order, each observing the pointer already moved below it |
| HistorySpec.RedoTimesWalksForward | src/historian/CommandHistory.ts:60-72 | k redos leave commands unchanged, move the pointer to min(length(commands) - 1, pointer + k), and execute commands[pointer+1], commands[pointer+2], ... in that order, each observing the pointer already on it |
| HistorySpec.UndoThenRedoRestores | src/historian/CommandHistory.ts:43-72 | k undos of applied commands followed by k redos restore the history, and the redos execute exactly the cancelled commands in reverse order |
| HistorySpec.UndoThenRedoOnce | src/historian/index.spec.ts:122-138 | from a history with an applied command, undo then redo restores (commands, pointer), cancelling and then executing that command |
| HistorySpec.BoundaryMovesAreNoOps | src/historian/index.spec.ts:101-113 | any number of undos at pointer -1, and any number of redos at the last command, change nothing and call nothing |
| TwoStacks.Concrete | src/historian/CommandHistory.ts:15-19 | every pair of applied and undone stacks is represented by a valid history |
| TwoStacks.AbsInjective | src/historian/CommandHistory.ts:15-19 | a valid history is determined by its applied and undone stacks |
| TwoStacks.AddRefines | src/historian/CommandHistory.ts:24-38 | add pushes the command onto the applied stack and empties the undone stack |
| TwoStacks.UndoRefines | src/historian/CommandHistory.ts:43-55 | undo moves the top applied command onto the undone stack and cancels exactly that command |
| TwoStacks.RedoRefines | src/historian/CommandHistory.ts:60-72 | redo moves the next undone command onto the applied stack and executes exactly that command |
| TwoStacks.ClearRefines | src/historian/CommandHistory.ts:74-77 | clear empties both stacks |
| Historian.CommandHistory.constructor | src/historian/CommandHistory.ts:15-19 | a new history has commands [] and pointer -1, is valid, and has called nothing |
| Historian.CommandHistory.Add | src/historian/CommandHistory.ts:27-38 | the new state is HistorySpec.Add of the old one: old commands up to the pointer plus the command, pointer advanced onto it; the invariant is kept and no command is called |
| Historian.CommandHistory.Undo | src/historian/CommandHistory.ts:43-55 | the new state and calls are those of HistorySpec.Undo: with an applied command, the pointer drops by one, then one cancel on the command at the old pointer is appended to the trace; at pointer -1 nothing changes |
| Historian.CommandHistory.Redo | src/historian/CommandHistory.ts:60-72 | the new state and calls are those of HistorySpec.Redo: with a command after the pointer, the pointer rises by one, then one execute on that command is appended to the trace; at the last command nothing changes |
| Historian.CommandHistory.Clear | src/historian/CommandHistory.ts:74-77 | commands become [] and the pointer -1, and the trace is unchanged: no command is cancelled or executed |

## Left out

- `src/historian/Command.ts` is not part of this model. Its `Command` class has empty `execute` and `cancel` bodies and an unused `name`, so commands are an opaque type parameter whose calls appear only in the trace.
- The test file `src/historian/index.spec.ts` is used only as evidence; `TestScenarios` restates its scenarios as assertions over the contracts.
- JavaScript truthiness of `commands[i]` is modelled as an index-in-range check. Stored commands are always objects.
- HistorySpec.Add: requires the invariant. For an out-of-range pointer the source would apply JavaScript `slice` semantics (negative ends count from the end), which the model does not describe.
- The class methods require the invariant. External writes to the public `commands` and `pointer` fields can break it; such writes are not modelled.
- Aliasing of the commands array is not modelled. `clear` empties the array in place (`length = 0`), so other holders of a reference would see it emptied, while `add` replaces it with a slice. The model treats `commands` as a value.
- Re-entrancy is not modelled: a command's `cancel` or `execute` calling back into the same history.
- Exceptions thrown by a command's `cancel` or `execute` are not modelled. They would propagate after the pointer has already moved.
- The pointer is a JavaScript number; the model uses an unbounded integer. The two agree below 2^53.
