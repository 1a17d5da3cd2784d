/**
 The engine: an immutable configuration and the three fields that its methods
 update in place. Each method states its effect on the fields and ties the new
 triple to the matching function of `FsmHistory`, where the properties that
 relate several calls are proved.
 */
module Fsm {

  import opened Optional
  import opened FsmConfig
  import H = FsmHistory

  class FSM {
    const config: Config
    const initial: StateId
    var state: StateId
    var undoStack: seq<StateId>
    var redoStack: seq<StateId>

    /** The fields as a value. */
    function Snapshot(): H.Snapshot
      reads this
    {
      H.Snapshot(state, undoStack, redoStack)
    }

    /**
     The object invariant: the configuration's ids are distinct, `initial` is
     the configured one, and under a well-formed configuration every id in the
     fields is a declared state.
     */
    ghost predicate Valid()
      reads this
    {
      && DistinctIds(config.states)
      && initial == config.initial
      && (WellFormed(config) ==> H.Closed(config, Snapshot()))
    }

    /** `new FSM(config)`: starts at the initial state with no history. */
    constructor (config: Config)
      requires DistinctIds(config.states)
      ensures Valid()
      ensures this.config == config && initial == config.initial
      ensures state == config.initial && undoStack == [] && redoStack == []
      ensures Snapshot() == H.Start(config)
    {
      this.config := config;
      this.initial := config.initial;
      this.state := config.initial;
      this.undoStack := [];
      this.redoStack := [];
      new;
      if WellFormed(config) {
        H.StartClosed(config);
      }
    }

    /** `getState()`: the active state. */
    function GetState(): (s: StateId)
      reads this
      ensures s == Snapshot().state
    {
      state
    }

    /** `changeState(target)`: fails, changing nothing, when `target` is not a declared state. */
    method ChangeState(target: StateId) returns (ok: bool)
      requires Valid()
      modifies this
      ensures Valid()
      ensures ok <==> IsState(config.states, target)
      ensures ok ==> state == target && undoStack == old(undoStack) + [old(state)] && redoStack == []
      ensures !ok ==> unchanged(this)
      ensures Snapshot() == H.After(old(Snapshot()), H.ChangeState(config, old(Snapshot()), target))
    {
      ghost var h := Snapshot();
      ok := IsState(config.states, target);
      if ok {
        undoStack := undoStack + [state];
        state := target;
        redoStack := [];
      }
      if WellFormed(config) {
        H.ChangeStateKeepsClosed(config, h, target);
      }
    }

    /**
     `trigger(event)`: follows the current state's transition for `event`,
     without checking that the target is declared; fails, changing nothing,
     when there is no such transition. The current state must be declared,
     which `Valid()` guarantees under a well-formed configuration.
     */
    method Trigger(event: EventId) returns (ok: bool)
      requires Valid() && IsState(config.states, state)
      modifies this
      ensures Valid()
      ensures ok <==> event in TransitionsOf(config.states, old(state))
      ensures ok ==> && state == TransitionsOf(config.states, old(state))[event]
                     && undoStack == old(undoStack) + [old(state)] && redoStack == []
      ensures !ok ==> unchanged(this)
      ensures Snapshot() == H.After(old(Snapshot()), H.Trigger(config, old(Snapshot()), event))
    {
      ghost var h := Snapshot();
      var transitions := TransitionsOf(config.states, state);
      ok := event in transitions;
      if ok {
        undoStack := undoStack + [state];
        state := transitions[event];
        redoStack := [];
      }
      if WellFormed(config) {
        H.TriggerKeepsClosed(config, h, event);
      }
    }

    /** `reset()`: returns to the initial state, pushing the initial state (the new one) on the undo stack. */
    method Reset()
      requires Valid()
      modifies this
      ensures Valid()
      ensures state == initial && undoStack == old(undoStack) + [initial] && redoStack == []
      ensures Snapshot() == H.Reset(config, old(Snapshot()))
    {
      ghost var h := Snapshot();
      state := initial;
      undoStack := undoStack + [state];
      redoStack := [];
      if WellFormed(config) {
        H.ResetKeepsClosed(config, h);
      }
    }

    /**
     `getStates()` (`event` is `None`): every declared state id in declaration
     order; `getStates(e)`: those whose transitions have an entry for `e`.
     */
    method GetStates(event: Option<EventId>) returns (arr: seq<StateId>)
      ensures event.None? ==> arr == Ids(config.states)
      ensures event.Some? ==> arr == IdsWith(config.states, event.value)
    {
      var states := config.states;
      arr := [];
      if event.None? {
        for i := 0 to |states|
          invariant arr + Ids(states[i..]) == Ids(states)
        {
          assert states[i..][1..] == states[i + 1..];
          arr := arr + [states[i].id];
        }
      } else {
        for i := 0 to |states|
          invariant arr + IdsWith(states[i..], event.value) == IdsWith(states, event.value)
        {
          assert states[i..][1..] == states[i + 1..];
          if event.value in states[i].transitions {
            arr := arr + [states[i].id];
          }
        }
      }
    }

    /** `undo()`: fails, changing nothing, on an empty undo stack. */
    method Undo() returns (ok: bool)
      requires Valid()
      modifies this
      ensures Valid()
      ensures ok <==> old(undoStack) != []
      ensures ok ==> && state == old(undoStack)[|old(undoStack)| - 1]
                     && undoStack == old(undoStack)[..|old(undoStack)| - 1]
                     && redoStack == old(redoStack) + [old(state)]
      ensures !ok ==> unchanged(this)
      ensures Snapshot() == H.After(old(Snapshot()), H.Undo(old(Snapshot())))
    {
      ghost var h := Snapshot();
      if |undoStack| == 0 {
        return false;
      }
      redoStack := redoStack + [state];
      state := undoStack[|undoStack| - 1];
      undoStack := undoStack[..|undoStack| - 1];
      ok := true;
      if WellFormed(config) {
        H.HistoryMovesKeepClosed(config, h);
      }
    }

    /** `redo()`: fails, changing nothing, on an empty redo stack. */
    method Redo() returns (ok: bool)
      requires Valid()
      modifies this
      ensures Valid()
      ensures ok <==> old(redoStack) != []
      ensures ok ==> && state == old(redoStack)[|old(redoStack)| - 1]
                     && redoStack == old(redoStack)[..|old(redoStack)| - 1]
                     && undoStack == old(undoStack) + [old(state)]
      ensures !ok ==> unchanged(this)
      ensures Snapshot() == H.After(old(Snapshot()), H.Redo(old(Snapshot())))
    {
      ghost var h := Snapshot();
      if |redoStack| == 0 {
        return false;
      }
      undoStack := undoStack + [state];
      state := redoStack[|redoStack| - 1];
      redoStack := redoStack[..|redoStack| - 1];
      ok := true;
      if WellFormed(config) {
        H.HistoryMovesKeepClosed(config, h);
      }
    }

    /** `clearHistory()`: empties both stacks and keeps the state. */
    method ClearHistory()
      requires Valid()
      modifies this
      ensures Valid()
      ensures state == old(state) && undoStack == [] && redoStack == []
      ensures Snapshot() == H.ClearHistory(old(Snapshot()))
    {
      ghost var h := Snapshot();
      undoStack := [];
      redoStack := [];
      if WellFormed(config) {
        H.HistoryMovesKeepClosed(config, h);
      }
    }
  }
}
