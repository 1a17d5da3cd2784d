/**
 The engine's mutable state as a value, the triple (state, undoStack,
 redoStack), and the effect of each operation on it. Stacks have their most
 recent entry last. An operation that can fail yields `None` and then changes
 nothing; `After` gives the triple that results either way.
 */
module FsmHistory {

  import opened Optional
  import opened FsmConfig

  datatype Snapshot = Snapshot(state: StateId, undoStack: seq<StateId>, redoStack: seq<StateId>)

  /** The triple right after construction. */
  function Start(c: Config): Snapshot
  {
    Snapshot(c.initial, [], [])
  }

  /** The triple after an operation that either succeeded with `o` or failed without changing anything. */
  function After(h: Snapshot, o: Option<Snapshot>): Snapshot
  {
    if o.Some? then o.value else h
  }

  /** `changeState(target)`: succeeds only for a declared state. */
  function ChangeState(c: Config, h: Snapshot, target: StateId): Option<Snapshot>
  {
    if IsState(c.states, target) then Some(Snapshot(target, h.undoStack + [h.state], []))
    else None
  }

  /** `trigger(event)`: follows the current state's transition for `event`; the target is not checked. */
  function Trigger(c: Config, h: Snapshot, event: EventId): Option<Snapshot>
    requires IsState(c.states, h.state)
  {
    var transitions := TransitionsOf(c.states, h.state);
    if event in transitions then Some(Snapshot(transitions[event], h.undoStack + [h.state], []))
    else None
  }

  /** `reset()`: goes to the initial state and records the initial state, not the previous one. */
  function Reset(c: Config, h: Snapshot): Snapshot
  {
    Snapshot(c.initial, h.undoStack + [c.initial], [])
  }

  /** `undo()`: moves the current state to the redo stack and returns to the top of the undo stack. */
  function Undo(h: Snapshot): Option<Snapshot>
  {
    if |h.undoStack| == 0 then None
    else Some(Snapshot(h.undoStack[|h.undoStack| - 1], h.undoStack[..|h.undoStack| - 1], h.redoStack + [h.state]))
  }

  /** `redo()`: moves the current state to the undo stack and returns to the top of the redo stack. */
  function Redo(h: Snapshot): Option<Snapshot>
  {
    if |h.redoStack| == 0 then None
    else Some(Snapshot(h.redoStack[|h.redoStack| - 1], h.undoStack + [h.state], h.redoStack[..|h.redoStack| - 1]))
  }

  /** `clearHistory()`. */
  function ClearHistory(h: Snapshot): Snapshot
  {
    Snapshot(h.state, [], [])
  }

  /** Every id in the triple is a declared state. */
  predicate Closed(c: Config, h: Snapshot)
  {
    && IsState(c.states, h.state)
    && (forall k :: 0 <= k < |h.undoStack| ==> IsState(c.states, h.undoStack[k]))
    && (forall k :: 0 <= k < |h.redoStack| ==> IsState(c.states, h.redoStack[k]))
  }

  /** The number of history entries. */
  function Depth(h: Snapshot): nat
  {
    |h.undoStack| + |h.redoStack|
  }

  /**
   A committed change can be undone, which restores the previous state, and
   cannot be redone before that.
   */
  lemma CommitThenUndo(h: Snapshot, n: Snapshot)
    requires n.undoStack == h.undoStack + [h.state] && n.redoStack == []
    ensures Redo(n).None?
    ensures Undo(n) == Some(Snapshot(h.state, h.undoStack, [n.state]))
  {
    assert (h.undoStack + [h.state])[..|h.undoStack|] == h.undoStack;
    assert n.redoStack + [n.state] == [n.state];
  }

  /** `undo()` fails exactly on an empty undo stack; otherwise it moves one entry between the stacks. */
  lemma UndoEffect(h: Snapshot)
    ensures Undo(h).None? <==> h.undoStack == []
    ensures Undo(h).Some? ==>
      && Undo(h).value.undoStack + [Undo(h).value.state] == h.undoStack
      && Undo(h).value.redoStack == h.redoStack + [h.state]
  {
  }

  /** `redo()` fails exactly on an empty redo stack; otherwise it moves one entry between the stacks. */
  lemma RedoEffect(h: Snapshot)
    ensures Redo(h).None? <==> h.redoStack == []
    ensures Redo(h).Some? ==>
      && Redo(h).value.redoStack + [Redo(h).value.state] == h.redoStack
      && Redo(h).value.undoStack == h.undoStack + [h.state]
  {
  }

  /** A successful `undo()` followed by `redo()` restores the whole triple. */
  lemma UndoThenRedo(h: Snapshot)
    requires h.undoStack != []
    ensures Undo(h).Some?
    ensures Redo(Undo(h).value) == Some(h)
  {
    UndoEffect(h);
    var n := Undo(h).value;
    assert (n.redoStack)[..|n.redoStack| - 1] == h.redoStack;
  }

  /** A successful `redo()` followed by `undo()` restores the whole triple. */
  lemma RedoThenUndo(h: Snapshot)
    requires h.redoStack != []
    ensures Redo(h).Some?
    ensures Undo(Redo(h).value) == Some(h)
  {
    RedoEffect(h);
    var n := Redo(h).value;
    assert (n.undoStack)[..|n.undoStack| - 1] == h.undoStack;
  }

  /** Neither `undo()` nor `redo()` changes the number of history entries. */
  lemma UndoRedoKeepDepth(h: Snapshot)
    ensures Depth(After(h, Undo(h))) == Depth(h)
    ensures Depth(After(h, Redo(h))) == Depth(h)
  {
  }

  /**
   `reset()` records the initial state rather than the previous one, so the
   first `undo()` after it stays at the initial state, and the state that was
   current before the reset is not on the undo stack at all: a second `undo()`
   reaches the entry below it, or fails when there is none.
   */
  lemma ResetThenUndo(c: Config, h: Snapshot)
    ensures Reset(c, h).state == c.initial && Reset(c, h).redoStack == []
    ensures Undo(Reset(c, h)) == Some(Snapshot(c.initial, h.undoStack, [c.initial]))
    ensures Undo(Undo(Reset(c, h)).value).Some? <==> h.undoStack != []
    ensures h.undoStack != [] ==>
      Undo(Undo(Reset(c, h)).value).value.state == h.undoStack[|h.undoStack| - 1]
  {
    assert (h.undoStack + [c.initial])[..|h.undoStack|] == h.undoStack;
    assert [] + [c.initial] == [c.initial];
  }

  /** After `clearHistory()` the state is kept and both `undo()` and `redo()` fail. */
  lemma ClearHistoryThenUndoRedo(h: Snapshot)
    ensures ClearHistory(h).state == h.state
    ensures Undo(ClearHistory(h)).None? && Redo(ClearHistory(h)).None?
  {
  }

  /** Under a well-formed configuration the engine starts closed. */
  lemma StartClosed(c: Config)
    requires WellFormed(c)
    ensures Closed(c, Start(c))
  {
  }

  /** `changeState` only ever moves to a declared state, so it keeps a triple closed. */
  lemma ChangeStateKeepsClosed(c: Config, h: Snapshot, target: StateId)
    requires Closed(c, h)
    ensures Closed(c, After(h, ChangeState(c, h, target)))
  {
  }

  /**
   `trigger` trusts the transition target, so it keeps a triple closed only
   when every target is declared: under a well-formed configuration.
   */
  lemma TriggerKeepsClosed(c: Config, h: Snapshot, event: EventId)
    requires WellFormed(c) && Closed(c, h)
    ensures Closed(c, After(h, Trigger(c, h, event)))
  {
  }

  /** `reset` keeps a triple closed when the initial state is declared. */
  lemma ResetKeepsClosed(c: Config, h: Snapshot)
    requires WellFormed(c) && Closed(c, h)
    ensures Closed(c, Reset(c, h))
  {
  }

  /** Moving entries between the two stacks keeps a triple closed, and so does emptying them. */
  lemma HistoryMovesKeepClosed(c: Config, h: Snapshot)
    requires Closed(c, h)
    ensures Closed(c, After(h, Undo(h)))
    ensures Closed(c, After(h, Redo(h)))
    ensures Closed(c, ClearHistory(h))
  {
  }
}
