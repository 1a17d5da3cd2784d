# Finite-state machine with undo/redo history

This project models the `FSM` class of `src/fsm.js` in Dafny. The class is a small state-machine engine. Its configuration does not change: an `initial` state id and the declared states, each with a `transitions` map from event id to target state id. It has three mutable fields: the current `state`, an `undoStack` and a `redoStack`, each stack with its most recent entry last. Its methods change state directly (`changeState`), follow a transition (`trigger`), return to the initial state (`reset`), list states (`getStates`), step through history (`undo`, `redo`) and forget history (`clearHistory`).

Layout:

- `option.dfy` (module `Optional`): an `Option` type. It is used for an operation that fails and for the optional `event` argument of `getStates`.
- `config.dfy` (module `FsmConfig`): the configuration. The `states` object is a sequence of `StateDef(id, transitions)` in declaration order, which is the order in which `for...in` enumerates it. State and event ids are opaque types compared only for equality. This module also defines the lookups and filters the engine uses, and proves how they behave. The filter behind `getStates(e)` is `FsmConfig.IdsWith`, and the list behind `getStates()` is `FsmConfig.Ids`.
- `history.dfy` (module `FsmHistory`): the triple `(state, undoStack, redoStack)` as a value. Each state-changing operation has a function giving its effect on the triple: `FsmHistory.Start` for construction, then `ChangeState`, `Trigger`, `Reset`, `Undo`, `Redo` and `ClearHistory`. A failed operation gives `None`, and `After` then keeps the old triple. The module also holds the lemmas that relate several calls: undo/redo inverses, reset then undo, clear history then undo/redo, and closure of the declared-state set.
- `fsm.dfy` (module `Fsm`): the class `FSM`. Its fields are `config`, `initial`, `state`, `undoStack` and `redoStack`. Each state-changing method updates the fields in place and states the new fields exactly. It also ties the new triple `Snapshot()` to the matching `FsmHistory` function of the old triple, so the lemmas there apply to method calls. `GetState` and `GetStates` only read: `GetStates` is proved equal to `FsmConfig.Ids` or `FsmConfig.IdsWith`. A failing call returns `false` and leaves the object unchanged. The invariant `Valid()` says three things: the state ids are distinct, `initial` is the configured one, and, under a well-formed configuration, every id held in the fields is a declared state.

Two behaviours of the code are kept exactly:

- `trigger` does not check that the transition target is a declared state, while `changeState` does. So the fields stay within the declared states only under `WellFormed(config)`: the initial state and every transition target must be declared. The code promises nothing when these are not declared, and neither does the model.
- `reset` pushes the new state (`initial`) onto the undo stack, not the previous one. One might expect a second `undo()` to return to the state that was current before the reset. The code never records that state: the second `undo()` reaches the entry below it, or fails when the undo stack was empty before the reset. The model follows the code (`FsmHistory.ResetThenUndo`).

## Model

| member | source | states |
|---|---|---|
| `Fsm.FSM.constructor` | src/fsm.js:6-12 | state is `config.initial`, both stacks are empty, `initial` is the configured one; the invariant holds |
| `Fsm.FSM.GetState` | src/fsm.js:18-20 | returns the current state and reads nothing else |
| `Fsm.FSM.ChangeState` | src/fsm.js:26-29 | succeeds exactly when the target is a declared state; then the old state is pushed on the undo stack, the state becomes the target and the redo stack is emptied; on failure nothing changes |
| `Fsm.FSM.Trigger` | src/fsm.js:35-43 | succeeds exactly when the current state's transitions have an entry for the event; then the old state is pushed, the state becomes that entry's target (not checked against the declared states) and the redo stack is emptied; on failure nothing changes |
| `Fsm.FSM.Reset` | src/fsm.js:48-52 | the state becomes `initial`; `initial` itself, not the previous state, is pushed on the undo stack; the redo stack is emptied |
| `Fsm.FSM.GetStates` | src/fsm.js:60-70 | with no event, the declared ids in declaration order; with an event, the ids whose transitions have an entry for it, in declaration order; changes nothing |
| `Fsm.FSM.Undo` | src/fsm.js:77-84 | returns false and changes nothing exactly when the undo stack is empty; otherwise pushes the old state on the redo stack and pops the undo stack's top into the state |
| `Fsm.FSM.Redo` | src/fsm.js:91-98 | the mirror image of `Undo`, with the two stacks swapped |
| `Fsm.FSM.ClearHistory` | src/fsm.js:103-106 | both stacks become empty and the state is kept |
| `FsmConfig.Ids` | src/fsm.js:64 | one id per declared state, the id declared at each position |
| `FsmConfig.IdsOrdered` | src/fsm.js:64 | with distinct ids, the list of all ids is in strictly increasing declaration order, each id at its own position |
| `FsmConfig.IndexOf` | src/fsm.js:36 | a declared id is found at the first position that declares it |
| `FsmConfig.TransitionsOfAt` | src/fsm.js:36 | with distinct ids, looking up the id declared at a position yields the transitions declared there |
| `FsmConfig.IdsWithMember` | src/fsm.js:67 | an id is listed for an event exactly when it is a declared state whose transitions have an entry for that event (both directions) |
| `FsmConfig.IdsWithOrdered` | src/fsm.js:67 | the ids listed for an event are declared states in strictly increasing declaration order, so the list is an order-preserving filter without repeats |
| `FsmHistory.CommitThenUndo` | src/fsm.js:77-98 | right after a committed change, `redo()` fails and `undo()` succeeds and restores the previous state and undo stack |
| `FsmHistory.UndoEffect` | src/fsm.js:77-84 | `undo()` fails exactly on an empty undo stack; otherwise the new undo stack plus the new state is the old undo stack, and the old state is appended to the redo stack |
| `FsmHistory.RedoEffect` | src/fsm.js:91-98 | the mirror image for `redo()` |
| `FsmHistory.UndoThenRedo` | src/fsm.js:77-98 | a successful `undo()` followed by `redo()` restores the whole triple |
| `FsmHistory.RedoThenUndo` | src/fsm.js:77-98 | a successful `redo()` followed by `undo()` restores the whole triple |
| `FsmHistory.UndoRedoKeepDepth` | src/fsm.js:77-98 | `undo()` and `redo()` keep the total number of entries in the two stacks |
| `FsmHistory.ResetThenUndo` | src/fsm.js:48-52 | after `reset()` the first `undo()` stays at `initial`; a second `undo()` succeeds exactly when the old undo stack was non-empty and then reaches its top, not the state current before the reset |
| `FsmHistory.ClearHistoryThenUndoRedo` | src/fsm.js:103-106 | after `clearHistory()` the state is kept and both `undo()` and `redo()` fail |
| `FsmHistory.StartClosed` | src/fsm.js:6-12 | under a well-formed configuration the triple after construction holds only declared states |
| `FsmHistory.ChangeStateKeepsClosed` | src/fsm.js:26-29 | `changeState` keeps every id in the triple declared, for any configuration |
| `FsmHistory.TriggerKeepsClosed` | src/fsm.js:35-43 | under a well-formed configuration `trigger` keeps every id in the triple declared |
| `FsmHistory.ResetKeepsClosed` | src/fsm.js:48-52 | under a well-formed configuration `reset` keeps every id in the triple declared |
| `FsmHistory.HistoryMovesKeepClosed` | src/fsm.js:77-106 | `undo`, `redo` and `clearHistory` keep every id in the triple declared |

## Left out

- The JavaScript lookup semantics are not modelled. `in` also finds properties inherited through the prototype chain (`"toString" in states`). The `!= undefined` test of `trigger` treats a transition mapped to `null` or `undefined` as absent. Transitions are a plain finite map here: a key is either present with a target or absent.
- `Fsm.FSM.Trigger`: requires the current state to be declared. When it is not, the source fails with a runtime `TypeError` while reading `config.states[this.state]`. Under a well-formed configuration `Valid()` always supplies this precondition.
- `Fsm.FSM.constructor`: requires distinct state ids, because an object's keys are distinct. The constructor accepts anything else without checking, as the source does.
- Every declared state has a `transitions` map. A state declared without a `transitions` property cannot be represented. For such a state the source throws a `TypeError` in `getStates(e)` and in `trigger`.
- The content and type of the thrown `Error` objects are not modelled. A failing `changeState` or `trigger` returns `false` and changes nothing.
- `for...in` enumerates integer-like keys first, in ascending order, before the other keys in insertion order. The model always uses declaration order, as for ordinary string keys.
- `getStates(null)` behaves like `getStates()` in the source, because `null == undefined`. Both are the `None` argument here.
- The configuration object is stored by reference, so a caller could mutate it after construction. The model treats it as immutable.
- State and event ids are opaque identifiers. Their representation as strings is not modelled.
- The stacks are sequences rather than growable arrays. `push` appends and `pop` removes the last element.
- `module.exports` and the author comment are packaging only.
