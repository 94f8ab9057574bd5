// The Vloop state machine of the crowbar (`CWBStateMachine`), built on the
// generic engine: two states with one transition each.
module FsmCrowbar {
  import opened Wrappers
  import opened Fsm
  import P = PopsStates

  datatype CWBStates = FO | ON

  function ToOn(s: CWBStates, i: P.Inputs): (r: TransitionResult<CWBStates>)
    ensures r.Transition? ==> r == To(ON)
  {
    if i.iLoopState == P.ILoopStates.ST && i.vsRunReceived then To(ON) else NoTransition
  }

  function ToFaultOff(s: CWBStates, i: P.Inputs): (r: TransitionResult<CWBStates>)
    ensures r.Transition? ==> r == To(FO)
  {
    if i.iLoopState == P.ILoopStates.FO || i.iLoopState == P.ILoopStates.FS || i.fault == 1 then To(FO) else NoTransition
  }

  /** The entry each `addState` call of the constructor registers. */
  function Entry(s: CWBStates): StateObj<CWBStates, P.Inputs> {
    match s
    case FO => StateObj(Some(P.Unchanged), [ToOn])
    case ON => StateObj(Some(P.Unchanged), [ToFaultOff])
  }

  /** The registered states after the constructor. */
  function Table(): (r: map<CWBStates, StateObj<CWBStates, P.Inputs>>)
    ensures forall s :: s in r && r[s] == Entry(s)
  {
    var r := map[FO := Entry(FO), ON := Entry(ON)];
    assert forall s :: s in r && r[s] == Entry(s) by {
      forall s ensures s in r && r[s] == Entry(s) {
        if s == FO { } else { assert s == ON; }
      }
    }
    r
  }

  /** One `update` of the machine in state `s`, with at most `fuel` cascaded passes. */
  function Step(s: CWBStates, i: P.Inputs, fuel: nat): Machine<CWBStates, P.Inputs> {
    Run(Machine(s, Table(), i), false, fuel)
  }

  /** The next state: a reference for what one `update` does. */
  function NextState(s: CWBStates, i: P.Inputs): CWBStates {
    match s
    case FO => if i.iLoopState == P.ILoopStates.ST && i.vsRunReceived then ON else FO
    case ON => if i.iLoopState in {P.ILoopStates.FO, P.ILoopStates.FS} || i.fault == 1 then FO else ON
  }

  class CWBStateMachine {
    const fsm: Engine<CWBStates, P.Inputs>

    constructor(inputs: P.Inputs)
      ensures fresh(fsm) && !fsm.stateFirst
      ensures fsm.Snapshot() == Machine(FO, Table(), inputs)
    {
      fsm := new Engine(inputs, FO, false);
      new;
      fsm.AddState(FO, Some(P.Unchanged), [ToOn]);
      fsm.AddState(ON, Some(P.Unchanged), [ToFaultOff]);
    }

    /** `update` on the converter's current readings. */
    method Update(inputs: P.Inputs)
      requires !fsm.stateFirst && fsm.states == Table()
      modifies fsm
      ensures fsm.state == NextState(old(fsm.state), inputs) && fsm.states == Table() && fsm.env == inputs
    {
      fsm.env := inputs;
      UpdateIsNextState(fsm.state, inputs, 0);
      fsm.Update(0);
    }

    function GetState(): CWBStates
      reads this, fsm
    {
      fsm.state
    }
  }

  /** The engine running the table computes the reference next state, whatever the fuel: neither transition cascades. */
  lemma UpdateIsNextState(s: CWBStates, i: P.Inputs, fuel: nat)
    ensures Step(s, i, fuel) == Machine(NextState(s, i), Table(), i)
  {
    EvaluateShort(Entry(s).transitions, s, i);
    QuietUpdate(Machine(s, Table(), i), P.Unchanged, fuel);
  }

  /** FO goes to ON iff the I-loop is in ST and VS_RUN was received; ON goes to FO iff the I-loop is FO or FS or the fault flag is 1. */
  lemma Guards(i: P.Inputs)
    ensures NextState(FO, i) == ON <==> i.iLoopState == P.ILoopStates.ST && i.vsRunReceived
    ensures NextState(ON, i) == FO <==> i.iLoopState == P.ILoopStates.FO || i.iLoopState == P.ILoopStates.FS || i.fault == 1
  {
  }
}
