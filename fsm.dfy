// The generic finite state machine engine. The machine's owner (the
// `Parent` object whose member functions are the state and transition
// functions) is modelled as an environment value of type E: a state function
// maps the environment to a new one, and a transition function reads it,
// together with the current state the owner can query through `getState`,
// and returns a transition result.
module Fsm {
  import opened Wrappers

  /** `FsmTransitionResult`: the default "no transition", or a target state with its cascade flag. */
  datatype TransitionResult<S> = NoTransition | Transition(target: S, cascade: bool)
  {
    predicate IsDefault() {
      NoTransition?
    }

    predicate Cascade() {
      Transition? && cascade
    }
  }

  /** `FsmTransitionResult(state, cascade = false)`: the constructor from a state marks the result non-default. */
  function To<S>(state: S, cascade: bool := false): (r: TransitionResult<S>)
    ensures !r.IsDefault() && r.target == state && r.Cascade() == cascade
  {
    Transition(state, cascade)
  }

  type StateFunc<!E> = E -> E
  type TransitionFunc<!S, !E> = (S, E) -> TransitionResult<S>

  /** `StateObj`: the state function (possibly null) and the transitions in registration order. */
  datatype StateObj<!S, !E> = StateObj(stateFunc: Option<StateFunc<E>>, transitions: seq<TransitionFunc<S, E>>)

  /** The entry `std::map::operator[]` creates for an unregistered state. */
  function EmptyState<S, E>(): StateObj<S, E> {
    StateObj(None, [])
  }

  /** The observable state of an engine: current state, registered states and the owner's data. */
  datatype Machine<!S, !E> = Machine(state: S, states: map<S, StateObj<S, E>>, env: E)

  /** `m_states[s]`: the entry for `s`, inserting an empty one when there is none. */
  function Touch<S, E>(states: map<S, StateObj<S, E>>, s: S): (r: map<S, StateObj<S, E>>)
    ensures s in r && r.Keys == states.Keys + {s}
    ensures forall t :: t in states ==> r[t] == states[t]
    ensures s !in states ==> r[s] == EmptyState()
  {
    if s in states then states else states[s := EmptyState()]
  }

  /** `executeState`: run the state function of the current state, if it has one. */
  function ExecuteState<S, E>(m: Machine<S, E>): (r: Machine<S, E>)
    ensures r.state == m.state && r.states == Touch(m.states, m.state)
  {
    var states := Touch(m.states, m.state);
    match states[m.state].stateFunc
    case None => m.(states := states)
    case Some(f) => Machine(m.state, states, f(m.env))
  }

  /** The result the transition loop stops at: the first non-default one, or the default when there is none. */
  function Evaluate<S, E>(transitions: seq<TransitionFunc<S, E>>, state: S, env: E): TransitionResult<S>
    decreases |transitions|
  {
    if transitions == [] then NoTransition
    else if !transitions[0](state, env).IsDefault() then transitions[0](state, env)
    else Evaluate(transitions[1..], state, env)
  }

  /** Evaluation stops at the first non-default result in registration order; it is the default only when every result is. */
  lemma {:induction false} FirstDecisiveWins<S, E>(transitions: seq<TransitionFunc<S, E>>, state: S, env: E)
    ensures var r := Evaluate(transitions, state, env);
      (r.IsDefault() <==> forall j :: 0 <= j < |transitions| ==> transitions[j](state, env).IsDefault())
      && (!r.IsDefault() ==> exists i :: (0 <= i < |transitions| && transitions[i](state, env) == r
        && forall j :: 0 <= j < i ==> transitions[j](state, env).IsDefault()))
    decreases |transitions|
  {
    if transitions != [] && transitions[0](state, env).IsDefault() {
      var r := Evaluate(transitions[1..], state, env);
      FirstDecisiveWins(transitions[1..], state, env);
      assert forall j :: 1 <= j < |transitions| ==> transitions[j] == transitions[1..][j - 1];
      if !r.IsDefault() {
        var i :| 0 <= i < |transitions[1..]| && transitions[1..][i](state, env) == r
          && forall j :: 0 <= j < i ==> transitions[1..][j](state, env).IsDefault();
        assert transitions[i + 1](state, env) == r;
      }
    } else if transitions != [] {
      assert transitions[0](state, env) == Evaluate(transitions, state, env);
    }
  }

  /** Evaluation stops at index `i` when every earlier transition declined and `i` decided. */
  lemma EvaluateAt<S, E>(transitions: seq<TransitionFunc<S, E>>, state: S, env: E, i: nat)
    requires i < |transitions| && !transitions[i](state, env).IsDefault()
    requires forall j :: 0 <= j < i ==> transitions[j](state, env).IsDefault()
    ensures Evaluate(transitions, state, env) == transitions[i](state, env)
  {
    var r := Evaluate(transitions, state, env);
    FirstDecisiveWins(transitions, state, env);
    var k :| 0 <= k < |transitions| && transitions[k](state, env) == r
      && forall j :: 0 <= j < k ==> transitions[j](state, env).IsDefault();
    assert k == i;
  }

  /** Evaluation of a list of one, two or three transitions: the first non-default result. */
  lemma EvaluateShort<S, E>(transitions: seq<TransitionFunc<S, E>>, state: S, env: E)
    requires 1 <= |transitions| <= 3
    ensures Evaluate(transitions, state, env) ==
      if !transitions[0](state, env).IsDefault() || |transitions| == 1 then transitions[0](state, env)
      else if !transitions[1](state, env).IsDefault() || |transitions| == 2 then transitions[1](state, env)
      else transitions[2](state, env)
  {
    var t := transitions;
    if |t| >= 2 {
      assert t[1..][0] == t[1];
      if |t| == 3 {
        assert t[1..][1..] == [t[2]];
        assert Evaluate(t[1..][1..], state, env) == (if t[2](state, env).IsDefault() then NoTransition else t[2](state, env));
      }
    }
  }

  /** Whether a result moves the machine away from `current`. */
  predicate Changes<S(==)>(r: TransitionResult<S>, current: S) {
    !r.IsDefault() && r.target != current
  }

  /**
   * One pass of the `do` body of `update`: with `stateFirst` the current
   * state's function runs before its transitions are evaluated, without it
   * the function of the resulting state runs after them. The flag says
   * whether the loop goes round again.
   */
  function Cycle<S(==), E>(m: Machine<S, E>, stateFirst: bool): (r: (Machine<S, E>, bool))
    ensures !Changes(Evaluate(Touch(m.states, m.state)[m.state].transitions, m.state, (if stateFirst then ExecuteState(m) else m).env), m.state) ==> r.0.state == m.state
    ensures r.1 ==> r.0.state != m.state
  {
    var m1 := if stateFirst then ExecuteState(m) else m.(states := Touch(m.states, m.state));
    var result := Evaluate(m1.states[m.state].transitions, m.state, m1.env);
    var changed := Changes(result, m.state);
    var m2 := if changed then m1.(state := result.target) else m1;
    var m3 := if stateFirst then m2 else ExecuteState(m2);
    (m3, changed && result.Cascade())
  }

  /**
   * `update` with at most `fuel` cascaded passes after the first; the
   * source loops for as long as transitions keep cascading.
   */
  function Run<S(==), E>(m: Machine<S, E>, stateFirst: bool, fuel: nat): Machine<S, E>
    decreases fuel
  {
    var (m', again) := Cycle(m, stateFirst);
    if again && fuel > 0 then Run(m', stateFirst, fuel - 1) else m'
  }

  /** `addState` uses `emplace`: the first registration of a state stays. */
  function Register<S, E>(states: map<S, StateObj<S, E>>, s: S, obj: StateObj<S, E>): (r: map<S, StateObj<S, E>>)
    ensures s in r && r[s] == (if s in states then states[s] else obj)
    ensures r.Keys == states.Keys + {s} && forall t :: t in states ==> r[t] == states[t]
  {
    if s in states then states else states[s := obj]
  }

  // ------------------------------------------------------------ properties

  /** Without a cascade request, `update` is one pass, whatever the fuel. */
  lemma NoCascadeSinglePass<S, E>(m: Machine<S, E>, stateFirst: bool, fuel: nat)
    requires !Cycle(m, stateFirst).1
    ensures Run(m, stateFirst, fuel) == Cycle(m, stateFirst).0
  {
  }

  /** A machine whose transitions never cascade changes state at most once per `update`. */
  lemma AtMostOneChange<S, E>(m: Machine<S, E>, stateFirst: bool, fuel: nat)
    requires forall s, k, t, e :: s in m.states && 0 <= k < |m.states[s].transitions| ==> !m.states[s].transitions[k](t, e).Cascade()
    ensures Run(m, stateFirst, fuel) == Cycle(m, stateFirst).0
  {
    var states := Touch(m.states, m.state);
    var env := (if stateFirst then ExecuteState(m) else m).env;
    var r := Evaluate(states[m.state].transitions, m.state, env);
    FirstDecisiveWins(states[m.state].transitions, m.state, env);
    if !r.IsDefault() {
      var i :| 0 <= i < |states[m.state].transitions| && states[m.state].transitions[i](m.state, env) == r;
      assert m.state in m.states;
    }
  }

  /** A decisive result that names the current state ends `update` without a change. */
  lemma SelfTransitionStops<S, E>(m: Machine<S, E>, fuel: nat)
    requires Evaluate(Touch(m.states, m.state)[m.state].transitions, m.state, m.env) == Transition(m.state, true)
    ensures Run(m, false, fuel).state == m.state
  {
  }

  /** An unregistered current state has no transitions: `update` keeps the state and registers an empty entry. */
  lemma UnregisteredStays<S, E>(m: Machine<S, E>, stateFirst: bool, fuel: nat)
    requires m.state !in m.states
    ensures Run(m, stateFirst, fuel) == m.(states := m.states[m.state := EmptyState()])
  {
  }

  /** Once `update` has visited an unregistered state, registering that state has no effect any more. */
  lemma LateRegistrationIgnored<S, E>(m: Machine<S, E>, stateFirst: bool, fuel: nat, obj: StateObj<S, E>)
    requires m.state !in m.states
    ensures var after := Run(m, stateFirst, fuel);
      Register(after.states, m.state, obj)[m.state] == EmptyState()
  {
    UnregisteredStays(m, stateFirst, fuel);
  }

  /** With the state function last, the environment is updated by the function of the state reached. */
  lemma StateFunctionOfTarget<S, E>(m: Machine<S, E>, f: StateFunc<E>, target: S)
    requires m.state in m.states && target in m.states && target != m.state
    requires Evaluate(m.states[m.state].transitions, m.state, m.env) == Transition(target, false)
    requires m.states[target].stateFunc == Some(f)
    ensures Cycle(m, false) == (Machine(target, m.states, f(m.env)), false)
  {
  }

  /**
   * A machine whose registered states all share a state function that
   * leaves the environment alone: one `update` moves to the evaluated
   * target, or stays, and no further pass follows unless it cascades.
   */
  lemma QuietUpdate<S, E>(m: Machine<S, E>, f: StateFunc<E>, fuel: nat)
    requires m.state in m.states && f(m.env) == m.env
    requires forall t :: t in m.states ==> m.states[t].stateFunc == Some(f)
    requires var r := Evaluate(m.states[m.state].transitions, m.state, m.env);
      !r.Cascade() && (Changes(r, m.state) ==> r.target in m.states)
    ensures var r := Evaluate(m.states[m.state].transitions, m.state, m.env);
      Run(m, false, fuel) == m.(state := if Changes(r, m.state) then r.target else m.state)
  {
  }

  /** The registered states when every state in `order` is added with the entry `entry` gives it. */
  function Registered<S, E>(order: seq<S>, entry: S -> StateObj<S, E>): map<S, StateObj<S, E>> {
    map s | s in order :: entry(s)
  }

  /** `QuietUpdate` for a table registered from an entry function. */
  lemma QuietTableUpdate<S, E>(order: seq<S>, entry: S -> StateObj<S, E>, f: StateFunc<E>, s: S, env: E, fuel: nat)
    requires s in order && f(env) == env
    requires forall t :: t in order ==> entry(t).stateFunc == Some(f)
    requires var r := Evaluate(entry(s).transitions, s, env);
      !r.Cascade() && (Changes(r, s) ==> r.target in order)
    ensures var r := Evaluate(entry(s).transitions, s, env);
      Run(Machine(s, Registered(order, entry), env), false, fuel)
      == Machine(if Changes(r, s) then r.target else s, Registered(order, entry), env)
  {
    QuietUpdate(Machine(s, Registered(order, entry), env), f, fuel);
  }

  // ------------------------------------------------------------ the engine

  /** An `Fsm` object: the current and starting states, the registered states and the owner's data. */
  class Engine<S(==), E> {
    var state: S
    const startingState: S
    var states: map<S, StateObj<S, E>>
    var env: E
    const stateFirst: bool

    constructor(env: E, startingState: S, stateFirst: bool)
      ensures state == startingState && this.startingState == startingState
      ensures states == map[] && this.env == env && this.stateFirst == stateFirst
    {
      state := startingState;
      this.startingState := startingState;
      states := map[];
      this.env := env;
      this.stateFirst := stateFirst;
    }

    function Snapshot(): Machine<S, E>
      reads this
    {
      Machine(state, states, env)
    }

    method AddState(s: S, stateFunc: Option<StateFunc<E>>, transitions: seq<TransitionFunc<S, E>>)
      modifies this
      ensures states == Register(old(states), s, StateObj(stateFunc, transitions))
      ensures state == old(state) && env == old(env)
    {
      if s !in states {
        states := states[s := StateObj(stateFunc, transitions)];
      }
    }

    /** The `addState` calls of a constructor, one per state of `order`, in that order. */
    method AddAll(order: seq<S>, entry: S -> StateObj<S, E>)
      requires states == map[]
      modifies this
      ensures states == Registered(order, entry)
      ensures state == old(state) && env == old(env)
    {
      var k := 0;
      while k < |order|
        invariant 0 <= k <= |order|
        invariant states == Registered(order[..k], entry)
        invariant state == old(state) && env == old(env)
      {
        AddState(order[k], entry(order[k]).stateFunc, entry(order[k]).transitions);
        assert order[..k + 1] == order[..k] + [order[k]];
        k := k + 1;
      }
      assert order[..k] == order;
    }

    function GetState(): S
      reads this
    {
      state
    }

    method Reset()
      modifies this
      ensures state == startingState && states == old(states) && env == old(env)
    {
      state := startingState;
    }

    method ExecuteStateNow()
      modifies this
      ensures Snapshot() == ExecuteState(old(Snapshot()))
    {
      if state !in states {
        states := states[state := EmptyState()];
      }
      var f := states[state].stateFunc;
      if f.Some? {
        env := f.value(env);
      }
    }

    /** The `for` loop of `update`: try the transitions in order and stop at the first decisive one. */
    static method EvaluateTransitions(transitions: seq<TransitionFunc<S, E>>, env: E, current: S)
      returns (result: TransitionResult<S>, changed: bool)
      ensures result == Evaluate(transitions, current, env) && changed == Changes(result, current)
    {
      result := NoTransition;
      changed := false;
      var i := 0;
      while i < |transitions|
        invariant 0 <= i <= |transitions|
        invariant forall j :: 0 <= j < i ==> transitions[j](current, env).IsDefault()
        invariant result == NoTransition && !changed
      {
        result := transitions[i](current, env);
        if !result.IsDefault() {
          changed := current != result.target;
        }
        if changed {
          EvaluateAt(transitions, current, env, i);
          return;
        }
        if !result.IsDefault() {
          EvaluateAt(transitions, current, env, i);
          return;
        }
        i := i + 1;
      }
      FirstDecisiveWins(transitions, current, env);
    }

    /** One pass of the `do` body; `again` is the loop condition. */
    method Pass() returns (again: bool)
      modifies this
      ensures (Snapshot(), again) == Cycle(old(Snapshot()), stateFirst)
    {
      if stateFirst {
        ExecuteStateNow();
      } else if state !in states {
        states := states[state := EmptyState()];
      }
      var result, changed := EvaluateTransitions(states[state].transitions, env, state);
      if changed {
        state := result.target;
      }
      if !stateFirst {
        ExecuteStateNow();
      }
      again := changed && result.Cascade();
    }

    /** `update`, allowing at most `fuel` cascaded passes after the first. */
    method Update(fuel: nat)
      modifies this
      ensures Snapshot() == Run(old(Snapshot()), stateFirst, fuel)
    {
      var k := fuel;
      while true
        invariant Run(Snapshot(), stateFirst, k) == Run(old(Snapshot()), stateFirst, fuel)
        decreases k
      {
        var again := Pass();
        if !again || k == 0 {
          return;
        }
        k := k - 1;
      }
    }
  }
}
