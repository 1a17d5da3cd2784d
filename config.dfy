/**
 The immutable configuration of a state machine: an initial state id and the
 states, each with a `transitions` map from event id to target state id.
 The states are kept as a sequence so that their declaration order, the order
 in which the engine enumerates them, is part of the model.
 */
module FsmConfig {

  /** State and event identifiers are opaque: the engine only compares them for equality. */
  type StateId(==)
  type EventId(==)

  /** One entry of the `states` object: a state id and its `transitions` map. */
  datatype StateDef = StateDef(id: StateId, transitions: map<EventId, StateId>)

  /** The configuration passed to the engine's constructor. */
  datatype Config = Config(initial: StateId, states: seq<StateDef>)

  /** The keys of an object are distinct: no state id is declared twice. */
  predicate DistinctIds(states: seq<StateDef>)
  {
    forall i, j :: 0 <= i < j < |states| ==> states[i].id != states[j].id
  }

  /** The state ids, in declaration order. */
  function Ids(states: seq<StateDef>): (r: seq<StateId>)
    ensures |r| == |states|
    ensures forall k :: 0 <= k < |states| ==> r[k] == states[k].id
  {
    if states == [] then [] else [states[0].id] + Ids(states[1..])
  }

  /** `s` is a key of the `states` object. */
  predicate IsState(states: seq<StateDef>, s: StateId)
  {
    s in Ids(states)
  }

  /** The position at which `s` is declared. */
  function IndexOf(states: seq<StateDef>, s: StateId): (i: nat)
    requires IsState(states, s)
    ensures i < |states| && states[i].id == s
    ensures forall j :: 0 <= j < i ==> states[j].id != s
  {
    if states[0].id == s then 0 else 1 + IndexOf(states[1..], s)
  }

  /** `states[s].transitions`. */
  function TransitionsOf(states: seq<StateDef>, s: StateId): map<EventId, StateId>
    requires IsState(states, s)
  {
    states[IndexOf(states, s)].transitions
  }

  /** The ids of the states whose transitions have an entry for `e`, in declaration order. */
  function IdsWith(states: seq<StateDef>, e: EventId): seq<StateId>
  {
    if states == [] then []
    else (if e in states[0].transitions then [states[0].id] else []) + IdsWith(states[1..], e)
  }

  /**
   A configuration the engine can never leave: the initial state is declared,
   and so is every transition target.
   */
  predicate WellFormed(c: Config)
  {
    && IsState(c.states, c.initial)
    && forall k, e :: 0 <= k < |c.states| && e in c.states[k].transitions ==>
         IsState(c.states, c.states[k].transitions[e])
  }

  /** With distinct ids, the transitions looked up for the id declared at `k` are those declared at `k`. */
  lemma TransitionsOfAt(states: seq<StateDef>, k: nat)
    requires DistinctIds(states) && k < |states|
    ensures IsState(states, states[k].id)
    ensures IndexOf(states, states[k].id) == k
    ensures TransitionsOf(states, states[k].id) == states[k].transitions
  {
  }

  /** Dropping the first declaration shifts every other id's position by one. */
  lemma IndexOfTail(states: seq<StateDef>, s: StateId)
    requires |states| > 0 && states[0].id != s && IsState(states[1..], s)
    ensures IsState(states, s)
    ensures IndexOf(states, s) == 1 + IndexOf(states[1..], s)
    ensures TransitionsOf(states, s) == TransitionsOf(states[1..], s)
  {
  }

  /** Dropping the first declaration keeps the ids distinct and drops the first id. */
  lemma DistinctTail(states: seq<StateDef>)
    requires DistinctIds(states) && |states| > 0
    ensures DistinctIds(states[1..])
    ensures !IsState(states[1..], states[0].id)
  {
  }

  /**
   `x` is returned by `IdsWith(states, e)` exactly when `x` is a declared state
   whose transitions have an entry for `e`.
   */
  lemma {:induction false} IdsWithMember(states: seq<StateDef>, e: EventId, x: StateId)
    requires DistinctIds(states)
    ensures x in IdsWith(states, e) <==> IsState(states, x) && e in TransitionsOf(states, x)
  {
    if states != [] {
      var rest := states[1..];
      DistinctTail(states);
      IdsWithMember(rest, e, x);
      if x == states[0].id {
        TransitionsOfAt(states, 0);
      } else if IsState(states, x) {
        assert IsState(rest, x) by {
          assert Ids(states) == [states[0].id] + Ids(rest);
        }
        IndexOfTail(states, x);
      }
    }
  }

  /** The ids `xs` are declared in `states`, in strictly increasing declaration order. */
  predicate InDeclarationOrder(states: seq<StateDef>, xs: seq<StateId>)
  {
    && (forall i :: 0 <= i < |xs| ==> IsState(states, xs[i]))
    && (forall i, j :: 0 <= i < j < |xs| ==> IndexOf(states, xs[i]) < IndexOf(states, xs[j]))
  }

  /** Ids in declaration order after the first declaration are in declaration order overall. */
  lemma OrderedInTail(states: seq<StateDef>, xs: seq<StateId>)
    requires DistinctIds(states) && |states| > 0
    requires InDeclarationOrder(states[1..], xs)
    ensures InDeclarationOrder(states, xs)
    ensures forall i :: 0 <= i < |xs| ==> IndexOf(states, xs[i]) > 0
  {
  }

  /** Putting the first declared id in front keeps the declaration order. */
  lemma OrderedCons(states: seq<StateDef>, xs: seq<StateId>)
    requires DistinctIds(states) && |states| > 0
    requires InDeclarationOrder(states[1..], xs)
    ensures InDeclarationOrder(states, [states[0].id] + xs)
  {
  }

  /**
   `IdsWith` keeps the declaration order: the ids it returns are declared and
   their positions strictly increase (so, in particular, no id is returned twice).
   */
  lemma {:induction false} IdsWithOrdered(states: seq<StateDef>, e: EventId)
    requires DistinctIds(states)
    ensures InDeclarationOrder(states, IdsWith(states, e))
  {
    if states != [] {
      DistinctTail(states);
      IdsWithOrdered(states[1..], e);
      if e in states[0].transitions {
        OrderedCons(states, IdsWith(states[1..], e));
      } else {
        OrderedInTail(states, IdsWith(states[1..], e));
      }
    }
  }

  /** With distinct ids, `Ids` lists every state exactly once, at its own position. */
  lemma IdsOrdered(states: seq<StateDef>)
    requires DistinctIds(states)
    ensures InDeclarationOrder(states, Ids(states))
    ensures forall k :: 0 <= k < |states| ==> IndexOf(states, Ids(states)[k]) == k
  {
  }
}
